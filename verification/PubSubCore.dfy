/**
 The matching engine as state transitions: the two-level index (event to index events, index
 event to clients), per-subscription counters, and the count and notify passes of one publish.
 Publishing through the index is proved to notify exactly what a scan of all subscriptions
 would, over every run, and the scan is then used to say when a subscription is notified.
 */
module PubSubCore {
  import opened Common
  import opened Arith
  import opened EventSyntax
  import opened StringOrder

  type Event = string
  type Client = string
  /** A subscription in place: its index event and its client. */
  type Key = (Event, Client)

  datatype Wrapper = Wrapper(
    peerURL: string, clientID: Client, matchType: string, subMetadata: string, pubMetadata: string,
    iftrigure: bool, published: map<Event, nat>, required: map<Event, set<int>>)

  type Subs = map<Event, map<Client, Wrapper>>
  type Index = map<Event, set<Event>>

  datatype Core = Core(subs: Subs, index: Index)

  const NAME := "NAME"

  // ---------- Subscribing ----------

  /** The longest prefix of the event list that parses. */
  function ParsedPrefix(events: seq<string>): (ps: seq<(Event, int)>)
    ensures |ps| <= |events|
  {
    if events == [] then []
    else match ParseEvent(events[0])
      case Throws => []
      case Ok(p) => [p] + ParsedPrefix(events[1..])
  }

  function Names(ps: seq<(Event, int)>): set<Event> {
    set i | 0 <= i < |ps| :: ps[i].0
  }

  function Counts(ps: seq<(Event, int)>, e: Event): set<int> {
    set i | 0 <= i < |ps| && ps[i].0 == e :: ps[i].1
  }

  function RequiredOf(ps: seq<(Event, int)>): map<Event, set<int>> {
    map e | e in Names(ps) :: Counts(ps, e)
  }

  function Lookup(index: Index, e: Event): set<Event> {
    if e in index then index[e] else {}
  }

  /** Every event in `ps` leads to the index event `i`. */
  function Indexed(index: Index, ps: seq<(Event, int)>, i: Event): Index {
    map e | e in index.Keys + Names(ps) :: Lookup(index, e) + if e in Names(ps) then {i} else {}
  }

  function NewWrapper(c: Client, addr: string, matchType: string, meta: string, ps: seq<(Event, int)>): Wrapper {
    Wrapper(addr, c, matchType, meta, "", false, map[], RequiredOf(ps))
  }

  function At(subs: Subs, i: Event): map<Client, Wrapper> {
    if i in subs then subs[i] else map[]
  }

  /** addNewClient; a subscription string that does not parse throws in the middle of it. */
  function Subscribed(k: Core, c: Client, addr: string, events: seq<string>, matchType: string, meta: string): Core {
    var ps := ParsedPrefix(events);
    if ps == [] then k
    else
      var i := ps[0].0;
      var index := Indexed(k.index, ps, i);
      if |ps| < |events| then Core(k.subs, index)
      else Core(k.subs[i := At(k.subs, i)[c := NewWrapper(c, addr, matchType, meta, ps)]], index)
  }

  /** eventUnSubscribe */
  function Unsubscribed(k: Core, i: Event, c: Client): Core {
    if i in k.subs then k.(subs := k.subs[i := k.subs[i] - {c}]) else k
  }

  /** What a subscription requires: each listed event with each count listed for it, nothing else. */
  lemma {:induction false} RequiredIs(ps: seq<(Event, int)>, e: Event, n: int)
    ensures e in RequiredOf(ps) <==> exists i :: 0 <= i < |ps| && ps[i].0 == e
    ensures e in RequiredOf(ps) && n in RequiredOf(ps)[e] <==> (e, n) in ps
  {
    if i :| 0 <= i < |ps| && ps[i].0 == e {
      assert ps[i].0 in Names(ps);
    }
    if (e, n) in ps {
      var i :| 0 <= i < |ps| && ps[i] == (e, n);
      assert ps[i].0 in Names(ps) && ps[i].1 in Counts(ps, e);
    }
  }

  /** Where its events lead afterwards: where they led before, and each listed one to the index event. */
  lemma {:induction false} IndexedIs(index: Index, ps: seq<(Event, int)>, i: Event, e: Event, x: Event)
    ensures x in Lookup(Indexed(index, ps, i), e) <==>
      x in Lookup(index, e) || (x == i && exists j :: 0 <= j < |ps| && ps[j].0 == e)
  {
    if j :| 0 <= j < |ps| && ps[j].0 == e {
      assert ps[j].0 in Names(ps);
    }
  }

  // ---------- Publishing one event ----------

  /** The index events visited before the first one without a client map ends the pass. Sets are
      visited in the order of their strings. */
  ghost function Reached(known: set<Event>, via: set<Event>): set<Event> {
    set i | i in via && forall x :: x in via && x !in known ==> Less(i, x)
  }

  lemma {:induction false} ReachedAll(known: set<Event>, via: set<Event>)
    requires via <= known
    ensures Reached(known, via) == via
  {
  }

  lemma {:induction false} ReachedKnown(known: set<Event>, via: set<Event>)
    ensures Reached(known, via) <= via * known
  {
    forall i | i in Reached(known, via) ensures i in known {
      Irreflexive(i);
    }
  }

  /** checkIfTriggure: every required count of every required event is met exactly. */
  ghost predicate Satisfied(required: map<Event, set<int>>, published: map<Event, nat>) {
    forall e: Event, n: int :: e in required && n in required[e] ==> e in published && published[e] == n
  }

  ghost function Bump(w: Wrapper, e: Event, meta: string): Wrapper {
    var published := w.published[e := (if e in w.published then w.published[e] else 0) + 1];
    if Satisfied(w.required, published)
    then w.(published := published, pubMetadata := meta, iftrigure := true)
    else w.(published := published)
  }

  ghost function BumpAll(m: map<Client, Wrapper>, e: Event, meta: string): map<Client, Wrapper> {
    map c | c in m :: Bump(m[c], e, meta)
  }

  /** pubsubPublish for one event, over the clients of the index events `via`. */
  ghost function Counted(subs: Subs, via: set<Event>, e: Event, meta: string): Subs {
    map i | i in subs :: if i in via then BumpAll(subs[i], e, meta) else subs[i]
  }

  /** checkNotify: a raised flag is taken down and, for NAME subscriptions, the counters restart. */
  function Taken(w: Wrapper): Wrapper {
    if !w.iftrigure then w
    else w.(iftrigure := false, published := if w.matchType == NAME then map[] else w.published)
  }

  function TakenAll(m: map<Client, Wrapper>): map<Client, Wrapper> {
    map c | c in m :: Taken(m[c])
  }

  /** The notify pass over `via`; looking up an index event without a client map creates one. */
  function Notified(subs: Subs, via: set<Event>): Subs {
    map i | i in subs.Keys + via :: if i in via then TakenAll(At(subs, i)) else subs[i]
  }

  function Raised(subs: Subs, via: set<Event>): set<Key> {
    set i, c | i in via && i in subs && c in subs[i] && subs[i][c].iftrigure :: (i, c)
  }

  // ---------- Runs ----------

  datatype Op =
    | Subscribe(client: Client, addr: string, events: seq<string>, matchType: string, meta: string)
    | Unsubscribe(event: Event, client: Client)
    | Publish(event: Event, meta: string)

  ghost function Next(k: Core, op: Op): Core {
    match op
    case Subscribe(c, addr, events, matchType, meta) => Subscribed(k, c, addr, events, matchType, meta)
    case Unsubscribe(i, c) => Unsubscribed(k, i, c)
    case Publish(e, meta) =>
      var via := Lookup(k.index, e);
      k.(subs := Notified(Counted(k.subs, Reached(k.subs.Keys, via), e, meta), via))
  }

  /** The subscriptions for which the step queues a notification. */
  ghost function Output(k: Core, op: Op): set<Key> {
    match op
    case Publish(e, meta) =>
      var via := Lookup(k.index, e);
      Raised(Counted(k.subs, Reached(k.subs.Keys, via), e, meta), via)
    case _ => {}
  }

  ghost function Run(k: Core, ops: seq<Op>): Core {
    if ops == [] then k else Next(Run(k, ops[..|ops| - 1]), ops[|ops| - 1])
  }

  /** Subscriptions are for NAME matching; their event strings may be anything. */
  predicate ByName(op: Op) {
    op.Subscribe? ==> op.matchType == NAME
  }

  const EMPTY := Core(map[], map[])

  // ---------- What every step keeps ----------

  /** Every index event leads to a (possibly empty) client map: no publication leaves early. */
  ghost predicate IndexClosed(k: Core) {
    forall e, i :: e in k.index && i in k.index[e] ==> i in k.subs
  }

  /** A subscription is filed under one of its own events, and found from all of them. */
  ghost predicate Filed(k: Core) {
    forall i, c :: i in k.subs && c in k.subs[i] ==>
      && i in k.subs[i][c].required
      && forall e :: e in k.subs[i][c].required ==> i in Lookup(k.index, e)
  }

  /** Between steps no NAME subscription is satisfied or flagged. */
  ghost predicate Settled(k: Core) {
    forall i, c :: i in k.subs && c in k.subs[i] ==> Quiet(k.subs[i][c])
  }

  ghost predicate Quiet(w: Wrapper) {
    && w.matchType == NAME && !w.iftrigure
    && !Satisfied(w.required, w.published)
    && !Satisfied(w.required, map[])
    && forall e :: e in w.published ==> w.published[e] >= 1
  }

  ghost predicate Inv(k: Core) {
    Filed(k) && Settled(k)
  }

  lemma {:induction false} QuietAfterPublish(w: Wrapper, e: Event, meta: string)
    requires Quiet(w)
    ensures Quiet(Taken(Bump(w, e, meta))) && Taken(Bump(w, e, meta)).required == w.required
    ensures Taken(w) == w
  {
  }

  lemma {:induction false} Unmet(required: map<Event, set<int>>, published: map<Event, nat>, e: Event, n: int)
    requires e in required && n in required[e] && (e !in published || published[e] != n)
    ensures !Satisfied(required, published)
  {
  }

  lemma {:induction false} NewIsQuiet(c: Client, addr: string, meta: string, ps: seq<(Event, int)>)
    requires ps != []
    ensures ps[0].0 in RequiredOf(ps)
    ensures Quiet(NewWrapper(c, addr, NAME, meta, ps))
  {
    var w := NewWrapper(c, addr, NAME, meta, ps);
    assert ps[0].0 in Names(ps);
    assert ps[0].1 in w.required[ps[0].0];
    Unmet(w.required, w.published, ps[0].0, ps[0].1);
    Unmet(w.required, map[], ps[0].0, ps[0].1);
  }

  lemma {:induction false} SubscribedKeepsInv(k: Core, op: Op)
    requires Inv(k) && ByName(op) && op.Subscribe?
    ensures Inv(Next(k, op))
  {
    hide Satisfied, Quiet, Indexed;
    var ps := ParsedPrefix(op.events);
    if ps != [] {
      NewIsQuiet(op.client, op.addr, op.meta, ps);
      SubscribedFiled(k, op, ps);
    }
  }

  lemma {:induction false} SubscribedFiled(k: Core, op: Op, ps: seq<(Event, int)>)
    requires Filed(k) && op.Subscribe? && ps == ParsedPrefix(op.events) != []
    requires ps[0].0 in RequiredOf(ps)
    ensures Filed(Next(k, op))
  {
    hide Names, Counts, ParsedPrefix;
    var k', i0 := Next(k, op), ps[0].0;
    forall i, c | i in k'.subs && c in k'.subs[i]
      ensures i in k'.subs[i][c].required && forall e :: e in k'.subs[i][c].required ==> i in Lookup(k'.index, e)
    {
      assert forall e :: Lookup(k.index, e) <= Lookup(k'.index, e);
      assert forall e :: e in Names(ps) ==> i0 in Lookup(k'.index, e);
    }
  }

  /** Where a wrapper comes from after a publication. */
  lemma {:induction false} PublishedFrom(k: Core, op: Op, i: Event, c: Client)
    requires op.Publish? && i in Next(k, op).subs && c in Next(k, op).subs[i]
    ensures i in k.subs && c in k.subs[i]
    ensures var w, w' := k.subs[i][c], Next(k, op).subs[i][c];
            w' == w || w' == Taken(w) || w' == Taken(Bump(w, op.event, op.meta))
  {
    hide Bump, Taken;
    ReachedKnown(k.subs.Keys, Lookup(k.index, op.event));
  }

  lemma {:induction false} PublishKeepsInv(k: Core, op: Op)
    requires Inv(k) && op.Publish?
    ensures Inv(Next(k, op))
  {
    hide Next, Satisfied, Bump, Taken, Quiet;
    var k' := Next(k, op);
    forall i, c | i in k'.subs && c in k'.subs[i]
      ensures i in k.subs && c in k.subs[i]
      ensures k'.subs[i][c].required == k.subs[i][c].required && Quiet(k'.subs[i][c])
    {
      PublishedFrom(k, op, i, c);
      QuietAfterPublish(k.subs[i][c], op.event, op.meta);
    }
    assert k'.index == k.index by { SameIndex(k, op); }
  }

  lemma {:induction false} SameIndex(k: Core, op: Op)
    requires op.Publish?
    ensures Next(k, op).index == k.index
  {
  }

  lemma {:induction false} NextKeepsInv(k: Core, op: Op)
    requires Inv(k) && ByName(op)
    ensures Inv(Next(k, op))
  {
    match op
    case Subscribe(_, _, _, _, _) => SubscribedKeepsInv(k, op);
    case Unsubscribe(_, _) =>
    case Publish(_, _) => PublishKeepsInv(k, op);
  }

  ghost predicate AllByName(ops: seq<Op>) {
    forall j :: 0 <= j < |ops| ==> ByName(ops[j])
  }

  /** Every reachable state keeps the invariant. */
  lemma {:induction false} RunKeepsInv(k: Core, ops: seq<Op>)
    requires Inv(k) && AllByName(ops)
    ensures Inv(Run(k, ops))
  {
    if ops != [] {
      RunKeepsInv(k, ops[..|ops| - 1]);
      NextKeepsInv(Run(k, ops[..|ops| - 1]), ops[|ops| - 1]);
    }
  }

  /** Exactly when a subscription leaves an index event without clients: it throws on a later
      event and the index event was not known before. */
  lemma {:induction false} SubscribedIndexClosed(k: Core, op: Op)
    requires IndexClosed(k) && op.Subscribe?
    ensures var ps := ParsedPrefix(op.events);
            IndexClosed(Next(k, op)) <==> ps == [] || |ps| == |op.events| || ps[0].0 in k.subs
  {
    var ps := ParsedPrefix(op.events);
    if ps != [] {
      var i := ps[0].0;
      assert i in Names(ps);
      assert i in Next(k, op).index && i in Next(k, op).index[i];
    }
  }

  /** The subscription does not make an index event known to the index alone. */
  ghost predicate Harmless(k: Core, op: Op) {
    op.Subscribe? ==>
      var ps := ParsedPrefix(op.events);
      ps == [] || |ps| == |op.events| || ps[0].0 in k.subs
  }

  ghost predicate HarmlessRun(k: Core, ops: seq<Op>) {
    forall j :: 0 <= j < |ops| ==> Harmless(Run(k, ops[..j]), ops[j])
  }

  lemma {:induction false} NextIndexClosed(k: Core, op: Op)
    requires IndexClosed(k)
    ensures IndexClosed(Next(k, op)) <==> Harmless(k, op)
  {
    if op.Subscribe? {
      SubscribedIndexClosed(k, op);
    }
  }

  /** The index stays closed throughout a run exactly when every subscription in it is harmless. */
  lemma {:induction false} RunIndexClosed(k: Core, ops: seq<Op>)
    requires IndexClosed(k)
    ensures (forall j :: 0 <= j <= |ops| ==> IndexClosed(Run(k, ops[..j]))) <==> HarmlessRun(k, ops)
  {
    hide Next, IndexClosed, Harmless;
    forall j | 0 <= j < |ops| ensures Run(k, ops[..j + 1]) == Next(Run(k, ops[..j]), ops[j]) {
      RunNext(k, ops, j);
    }
    if forall j :: 0 <= j <= |ops| ==> IndexClosed(Run(k, ops[..j])) {
      forall j | 0 <= j < |ops| ensures Harmless(Run(k, ops[..j]), ops[j]) {
        NextIndexClosed(Run(k, ops[..j]), ops[j]);
        assert IndexClosed(Run(k, ops[..j + 1]));
      }
    }
    if HarmlessRun(k, ops) {
      forall j | 0 <= j <= |ops| ensures IndexClosed(Run(k, ops[..j])) {
        ClosedUpTo(k, ops, j);
      }
    }
  }

  lemma {:induction false} ClosedUpTo(k: Core, ops: seq<Op>, j: nat)
    requires IndexClosed(k) && HarmlessRun(k, ops) && j <= |ops|
    ensures IndexClosed(Run(k, ops[..j]))
  {
    hide Next, IndexClosed, Harmless;
    if j > 0 {
      ClosedUpTo(k, ops, j - 1);
      RunNext(k, ops, j - 1);
      NextIndexClosed(Run(k, ops[..j - 1]), ops[j - 1]);
    }
  }

  lemma {:induction false} RunNext(k: Core, ops: seq<Op>, j: nat)
    requires j < |ops|
    ensures Run(k, ops[..j + 1]) == Next(Run(k, ops[..j]), ops[j])
  {
    assert ops[..j + 1][..j] == ops[..j];
  }

  /** One malformed subscription: its index event is known to the index alone. */
  lemma {:induction false} MalformedOpensIndex()
    ensures Next(EMPTY, MALFORMED) == Core(map[], map["a" := {"a"}])
  {
    MalformedPrefix();
    var ps := ParsedPrefix(MALFORMED.events);
    assert Names(ps) == {"a"} by { assert ps[0].0 in Names(ps); }
    assert Lookup(map[], "a") + {"a"} == {"a"};
    assert Indexed(map[], ps, "a") == map["a" := {"a"}];
  }

  // ---------- The scan of all subscriptions ----------

  /** A subscription as its client means it: what it waits for and what it has heard of that. */
  datatype Sub = Sub(required: map<Event, set<int>>, heard: map<Event, nat>)
  type Scan = map<Key, Sub>

  function Hear(s: Sub, e: Event): Sub {
    s.(heard := s.heard[e := (if e in s.heard then s.heard[e] else 0) + 1])
  }

  ghost function ScanNext(n: Scan, op: Op): Scan {
    match op
    case Subscribe(c, _, events, _, _) =>
      var ps := ParsedPrefix(events);
      if ps == [] || |ps| < |events| then n else n[(ps[0].0, c) := Sub(RequiredOf(ps), map[])]
    case Unsubscribe(i, c) => n - {(i, c)}
    case Publish(e, _) =>
      map k | k in n ::
        if e !in n[k].required then n[k]
        else if Satisfied(n[k].required, Hear(n[k], e).heard) then n[k].(heard := map[])
        else Hear(n[k], e)
  }

  ghost function ScanOutput(n: Scan, op: Op): set<Key> {
    match op
    case Publish(e, _) =>
      set k | k in n && e in n[k].required && Satisfied(n[k].required, Hear(n[k], e).heard)
    case _ => {}
  }

  /** Same requirements, same counts of required events. */
  ghost predicate Same(w: Wrapper, s: Sub) {
    && s.required == w.required
    && forall e :: e in w.required ==>
         (e in w.published <==> e in s.heard) && (e in s.heard ==> w.published[e] == s.heard[e])
  }

  ghost predicate InPlace(k: Core, key: Key) {
    key.0 in k.subs && key.1 in k.subs[key.0]
  }

  ghost function Of(k: Core, key: Key): Wrapper
    requires InPlace(k, key)
  {
    k.subs[key.0][key.1]
  }

  ghost predicate Refines(k: Core, n: Scan) {
    && (forall key :: InPlace(k, key) <==> key in n)
    && forall key :: key in n ==> Same(Of(k, key), n[key])
  }

  lemma {:induction false} SatisfiedSame(w: Wrapper, s: Sub)
    requires Same(w, s)
    ensures Satisfied(w.required, w.published) == Satisfied(s.required, s.heard)
  {
    if Satisfied(w.required, w.published) {
      forall e: Event, n: int | e in s.required && n in s.required[e] ensures e in s.heard && s.heard[e] == n {
        assert e in w.required && n in w.required[e];
      }
    }
    if Satisfied(s.required, s.heard) {
      forall e: Event, n: int | e in w.required && n in w.required[e] ensures e in w.published && w.published[e] == n {
        assert e in s.required && n in s.required[e];
      }
    }
  }

  lemma {:induction false} FiledAt(k: Core, key: Key, e: Event)
    requires Inv(k) && InPlace(k, key) && e in Of(k, key).required
    ensures key.0 in Lookup(k.index, e)
  {
  }

  /** The publication gets to the client map that holds the subscription. */
  ghost predicate Reaches(k: Core, op: Op, key: Key) {
    op.Publish? && key.0 in Reached(k.subs.Keys, Lookup(k.index, op.event))
  }

  /** What one publish does to one subscription. */
  lemma {:induction false} PublishAt(k: Core, op: Op, key: Key)
    requires Inv(k) && op.Publish?
    ensures InPlace(Next(k, op), key) <==> InPlace(k, key)
    ensures InPlace(k, key) ==>
      && Of(Next(k, op), key)
      == (if Reaches(k, op, key) then Taken(Bump(Of(k, key), op.event, op.meta)) else Of(k, key))
    ensures key in Output(k, op) <==>
      InPlace(k, key) && Reaches(k, op, key) && Bump(Of(k, key), op.event, op.meta).iftrigure
  {
    assert InPlace(k, key) ==> Quiet(Of(k, key));
  }

  /** Counting an event the subscription does not require changes nothing that matters. */
  lemma {:induction false} BumpSame(w: Wrapper, s: Sub, e: Event, meta: string)
    requires Quiet(w) && Same(w, s)
    ensures e !in w.required ==> !Bump(w, e, meta).iftrigure && Same(Bump(w, e, meta), s)
    ensures e in w.required ==>
      && Bump(w, e, meta).iftrigure == Satisfied(s.required, Hear(s, e).heard)
      && Same(Bump(w, e, meta), Hear(s, e))
  {
    var w' := Bump(w, e, meta);
    if e in w.required {
      SatisfiedSame(w', Hear(s, e));
    } else {
      SatisfiedSame(w, s);
      SatisfiedSame(w', s);
    }
  }

  /** The publication reaches every subscription that requires its event. */
  ghost predicate Sees(k: Core, op: Op) {
    forall key :: op.Publish? && InPlace(k, key) && op.event in Of(k, key).required ==> Reaches(k, op, key)
  }

  /** For one subscription, a publish through the index does what the scan does, unless the
      subscription requires the event and is not reached: then it hears nothing. */
  lemma {:induction false} PublishRefinesAt(k: Core, n: Scan, op: Op, key: Key)
    requires Inv(k) && Refines(k, n) && op.Publish?
    ensures key in Output(k, op) <==> key in ScanOutput(n, op) && Reaches(k, op, key)
    ensures InPlace(Next(k, op), key) <==> key in ScanNext(n, op)
    ensures key in n ==>
      && var w' := Of(Next(k, op), key);
         if op.event !in n[key].required || Reaches(k, op, key) then Same(w', ScanNext(n, op)[key])
         else w' == Of(k, key) && (key in ScanOutput(n, op) || !Same(w', ScanNext(n, op)[key]))
  {
    PublishAt(k, op, key);
    if key in n {
      var w := Of(k, key);
      assert Quiet(w) && Same(w, n[key]);
      BumpSame(w, n[key], op.event, op.meta);
    }
  }

  /** One step through the index agrees with the scan, in whom it notifies and in the counters it
      leaves, exactly when the step reaches every subscription that requires the event. */
  lemma {:induction false} NextRefines(k: Core, n: Scan, op: Op)
    requires Inv(k) && Refines(k, n) && ByName(op)
    ensures Refines(Next(k, op), ScanNext(n, op)) && Output(k, op) == ScanOutput(n, op) <==> Sees(k, op)
  {
    if op.Publish? {
      forall key ensures AgreesOn(k, n, op, key) <==> (InPlace(k, key) && op.event in Of(k, key).required ==> Reaches(k, op, key)) {
        PublishRefinesAt(k, n, op, key);
      }
      AgreesEverywhere(k, n, op);
    } else {
      OtherRefines(k, n, op);
    }
  }

  ghost predicate AgreesOn(k: Core, n: Scan, op: Op, key: Key) {
    && (key in Output(k, op) <==> key in ScanOutput(n, op))
    && (InPlace(Next(k, op), key) <==> key in ScanNext(n, op))
    && (key in ScanNext(n, op) ==> Same(Of(Next(k, op), key), ScanNext(n, op)[key]))
  }

  lemma {:induction false} AgreesEverywhere(k: Core, n: Scan, op: Op)
    ensures Refines(Next(k, op), ScanNext(n, op)) && Output(k, op) == ScanOutput(n, op)
       <==> forall key :: AgreesOn(k, n, op, key)
  {
    hide Next, Output, ScanNext, ScanOutput, Same;
    if forall key :: AgreesOn(k, n, op, key) {
      forall key
        ensures key in Output(k, op) <==> key in ScanOutput(n, op)
        ensures InPlace(Next(k, op), key) <==> key in ScanNext(n, op)
        ensures key in ScanNext(n, op) ==> Same(Of(Next(k, op), key), ScanNext(n, op)[key])
      {
        assert AgreesOn(k, n, op, key);
      }
    }
  }

  lemma {:induction false} OtherRefines(k: Core, n: Scan, op: Op)
    requires Refines(k, n) && ByName(op) && !op.Publish?
    ensures Refines(Next(k, op), ScanNext(n, op)) && Output(k, op) == ScanOutput(n, op)
  {
    hide ParsedPrefix, RequiredOf, Indexed;
    forall key
      ensures InPlace(Next(k, op), key) <==> key in ScanNext(n, op)
      ensures key in ScanNext(n, op) ==> Same(Of(Next(k, op), key), ScanNext(n, op)[key])
    {
      assert InPlace(k, key) <==> key in n;
    }
  }

  ghost function ScanRun(n: Scan, ops: seq<Op>): Scan {
    if ops == [] then n else ScanNext(ScanRun(n, ops[..|ops| - 1]), ops[|ops| - 1])
  }

  lemma {:induction false} EmptyStart()
    ensures Inv(EMPTY) && Refines(EMPTY, map[])
  {
  }

  /** Step `j` of the run notifies whom the scan notifies and leaves the same counters. */
  ghost predicate AgreesAt(ops: seq<Op>, j: nat)
    requires j < |ops|
  {
    && Output(Run(EMPTY, ops[..j]), ops[j]) == ScanOutput(ScanRun(map[], ops[..j]), ops[j])
    && Refines(Run(EMPTY, ops[..j + 1]), ScanRun(map[], ops[..j + 1]))
  }

  /** Every step of a run from the empty server agrees with the scan exactly when every
      publication in it reaches the subscriptions that require its event. */
  lemma {:induction false} IndexRefinesScan(ops: seq<Op>)
    requires AllByName(ops)
    ensures (forall j :: 0 <= j < |ops| ==> AgreesAt(ops, j)) <==>
            (forall j :: 0 <= j < |ops| ==> Sees(Run(EMPTY, ops[..j]), ops[j]))
  {
    hide Next, Output, ScanNext, ScanOutput, Inv, Refines, ByName, Sees;
    if forall j :: 0 <= j < |ops| ==> AgreesAt(ops, j) {
      forall j | 0 <= j < |ops| ensures Sees(Run(EMPTY, ops[..j]), ops[j]) {
        RefinesUpTo(ops, j);
        AgreesStep(ops, j);
      }
    }
    if forall j :: 0 <= j < |ops| ==> Sees(Run(EMPTY, ops[..j]), ops[j]) {
      forall j: nat | j < |ops| ensures AgreesAt(ops, j) {
        AgreesIfSeen(ops, j);
      }
    }
  }

  lemma {:induction false} RefinesUpTo(ops: seq<Op>, j: nat)
    requires j < |ops| && forall i :: 0 <= i < |ops| ==> AgreesAt(ops, i)
    ensures Refines(Run(EMPTY, ops[..j]), ScanRun(map[], ops[..j]))
  {
    EmptyStart();
    if j > 0 {
      assert AgreesAt(ops, j - 1);
    }
  }

  lemma {:induction false} AgreesStep(ops: seq<Op>, j: nat)
    requires AllByName(ops) && j < |ops| && Refines(Run(EMPTY, ops[..j]), ScanRun(map[], ops[..j]))
    ensures AgreesAt(ops, j) <==> Sees(Run(EMPTY, ops[..j]), ops[j])
  {
    hide Next, Output, ScanNext, ScanOutput, Inv, Refines, ByName, Sees;
    EmptyStart();
    RunKeepsInv(EMPTY, ops[..j]);
    NextRefines(Run(EMPTY, ops[..j]), ScanRun(map[], ops[..j]), ops[j]);
    assert ops[..j + 1][..j] == ops[..j];
  }

  lemma {:induction false} AgreesIfSeen(ops: seq<Op>, j: nat)
    requires AllByName(ops) && j < |ops| && forall i :: 0 <= i < |ops| ==> Sees(Run(EMPTY, ops[..i]), ops[i])
    ensures AgreesAt(ops, j)
  {
    hide Next, Output, ScanNext, ScanOutput, Inv, Refines, ByName, Sees;
    EmptyStart();
    if j > 0 {
      AgreesIfSeen(ops, j - 1);
    }
    AgreesStep(ops, j);
  }

  /** A publication that does not leave early reaches everybody who requires its event. */
  lemma {:induction false} NoExitSees(k: Core, op: Op)
    requires Inv(k) && (op.Publish? ==> Lookup(k.index, op.event) <= k.subs.Keys)
    ensures Sees(k, op)
  {
    if op.Publish? {
      ReachedAll(k.subs.Keys, Lookup(k.index, op.event));
    }
  }

  /** With harmless subscriptions only, every run through the index agrees with the scan. */
  lemma {:induction false} HarmlessRefines(ops: seq<Op>)
    requires AllByName(ops) && HarmlessRun(EMPTY, ops)
    ensures forall j :: 0 <= j < |ops| ==> AgreesAt(ops, j)
  {
    hide Next, Output, Refines, ByName, Sees, HarmlessRun, Inv;
    EmptyStart();
    forall j | 0 <= j < |ops| ensures Sees(Run(EMPTY, ops[..j]), ops[j]) {
      RunKeepsInv(EMPTY, ops[..j]);
      ClosedUpTo(EMPTY, ops, j);
      ClosedNoExit(Run(EMPTY, ops[..j]), ops[j]);
      NoExitSees(Run(EMPTY, ops[..j]), ops[j]);
    }
    IndexRefinesScan(ops);
  }

  lemma {:induction false} ClosedNoExit(k: Core, op: Op)
    requires IndexClosed(k)
    ensures op.Publish? ==> Lookup(k.index, op.event) <= k.subs.Keys
  {
  }

  // ---------- A notification lost to the early exit ----------

  const MALFORMED := Subscribe("c", "", ["a", "b:x"], NAME, "")
  const BOTH := Subscribe("d", "", ["b", "a"], NAME, "")

  ghost function Waits(published: map<Event, nat>): Wrapper {
    Wrapper("", "d", NAME, "", "", false, published, map["a" := {1}, "b" := {1}])
  }

  lemma {:induction false} BothParses()
    ensures var ps := ParsedPrefix(BOTH.events);
            && |ps| == 2 && ps[0].0 == "b" && Names(ps) == {"a", "b"} && RequiredOf(ps) == Waits(map[]).required
  {
    hide ParseEvent;
    ParseEventInverts("a", 1);
    ParseEventInverts("b", 1);
    var events := BOTH.events;
    assert events[1..] == ["a"];
    assert ["a"][1..] == [];
    assert ParsedPrefix([]) == [];
    assert ParsedPrefix(["a"]) == [("a", 1)];
    var ps := ParsedPrefix(events);
    assert ps == [("b", 1), ("a", 1)];
    assert ps[0].0 in Names(ps) && ps[1].0 in Names(ps);
    assert Counts(ps, "a") == {1} by { assert ps[1].1 in Counts(ps, "a"); }
    assert Counts(ps, "b") == {1} by { assert ps[0].1 in Counts(ps, "b"); }
  }

  lemma {:induction false} BothSubscribed()
    ensures var k := Next(Next(EMPTY, MALFORMED), BOTH);
            k == Core(map["b" := map["d" := Waits(map[])]], map["a" := {"a", "b"}, "b" := {"b"}])
    ensures ScanNext(ScanNext(map[], MALFORMED), BOTH) == map[("b", "d") := Sub(Waits(map[]).required, map[])]
  {
    hide ParsedPrefix, RequiredOf, Names;
    MalformedOpensIndex();
    BothParses();
    MalformedPrefix();
    var k1 := Core(map[], map["a" := {"a"}]);
    var ps := ParsedPrefix(BOTH.events);
    assert Lookup(k1.index, "b") + {"b"} == {"b"} && Lookup(k1.index, "a") + {"b"} == {"a", "b"};
    assert Indexed(k1.index, ps, "b") == map["a" := {"a", "b"}, "b" := {"b"}];
  }

  lemma {:induction false} MalformedPrefix()
    ensures ParsedPrefix(MALFORMED.events) == [("a", 1)]
  {
    hide ParseEvent;
    ParseEventInverts("a", 1);
    ParseEventThrows("b", "x");
    assert "b" + ":" + "x" == "b:x";
    assert MALFORMED.events[0] == "a" && MALFORMED.events[1..] == ["b:x"];
    assert ParsedPrefix(["b:x"]) == [];
  }

  lemma {:induction false} OneBumped()
    ensures Bump(Waits(map[]), "b", "") == Waits(map["b" := 1])
    ensures Taken(Waits(map["b" := 1])) == Waits(map["b" := 1])
  {
    Unmet(Waits(map[]).required, map["b" := 1], "a", 1);
  }

  lemma {:induction false} OneCounted(k: Core)
    requires k == Core(map["b" := map["d" := Waits(map[])]], map["a" := {"a", "b"}, "b" := {"b"}])
    ensures Next(k, Publish("b", "")) == k.(subs := map["b" := map["d" := Waits(map["b" := 1])]])
  {
    hide Bump, Taken, Waits, Reached;
    OneBumped();
    ReachedAll({"b"}, {"b"});
    assert k.subs.Keys == {"b"} && Lookup(k.index, "b") == {"b"};
    var w := Waits(map["b" := 1]);
    assert BumpAll(k.subs["b"], "b", "") == map["d" := w];
    assert TakenAll(map["d" := w]) == map["d" := w];
    assert Counted(k.subs, {"b"}, "b", "") == map["b" := map["d" := w]];
  }

  lemma {:induction false} OneHeard(n: Scan)
    requires n == map[("b", "d") := Sub(Waits(map[]).required, map[])]
    ensures ScanNext(n, Publish("b", "")) == map[("b", "d") := Sub(Waits(map[]).required, map["b" := 1])]
  {
    hide Satisfied;
    Unmet(Waits(map[]).required, map["b" := 1], "a", 1);
  }

  lemma {:induction false} ExitBeforeB(k: Core, n: Scan)
    requires k == Core(map["b" := map["d" := Waits(map["b" := 1])]], map["a" := {"a", "b"}, "b" := {"b"}])
    requires n == map[("b", "d") := Sub(Waits(map[]).required, map["b" := 1])]
    ensures Output(k, Publish("a", "")) == {}
    ensures ("b", "d") in ScanOutput(n, Publish("a", ""))
  {
    var known := k.subs.Keys;
    assert "a" in {"a", "b"} && "a" !in known;
    Irreflexive("a");
    assert Reached(known, {"a", "b"}) == {};
    assert Counted(k.subs, {}, "a", "") == k.subs;
    assert Hear(n[("b", "d")], "a").heard == map["a" := 1, "b" := 1];
  }

  /** After the malformed subscription, a client waiting for "b" and "a" is sent both and is not
      notified, where the scan notifies it. */
  lemma {:induction false} ExitLosesNotification()
    ensures var ops := [MALFORMED, BOTH, Publish("b", ""), Publish("a", "")];
            && AllByName(ops)
            && Output(Run(EMPTY, ops[..3]), ops[3]) == {}
            && ("b", "d") in ScanOutput(ScanRun(map[], ops[..3]), ops[3])
  {
    hide Next, Output, ScanNext, ScanOutput;
    var ops := [MALFORMED, BOTH, Publish("b", ""), Publish("a", "")];
    assert ops[..3][..2] == ops[..2] && ops[..2][..1] == ops[..1] && ops[..1][..0] == [];
    assert Run(EMPTY, ops[..1]) == Next(EMPTY, MALFORMED) && ScanRun(map[], ops[..1]) == ScanNext(map[], MALFORMED);
    assert ops[..2][1] == BOTH && ops[..3][2] == Publish("b", "");
    BothSubscribed();
    OneCounted(Run(EMPTY, ops[..2]));
    OneHeard(ScanRun(map[], ops[..2]));
    ExitBeforeB(Run(EMPTY, ops[..3]), ScanRun(map[], ops[..3]));
  }

  // ---------- When a subscription is notified ----------

  /** The step leaves the subscription in place. */
  predicate Keeps(op: Op, key: Key) {
    match op
    case Subscribe(c, _, events, _, _) => ParsedPrefix(events) == [] || (ParsedPrefix(events)[0].0, c) != key
    case Unsubscribe(i, c) => (i, c) != key
    case Publish(_, _) => true
  }

  ghost predicate AllKeep(ops: seq<Op>, key: Key) {
    forall j :: 0 <= j < |ops| ==> Keeps(ops[j], key)
  }

  /** Any other step leaves the subscription alone. */
  lemma {:induction false} KeptAt(k: Core, op: Op, key: Key)
    requires InPlace(k, key) && Keeps(op, key) && !op.Publish?
    ensures InPlace(Next(k, op), key) && Of(Next(k, op), key) == Of(k, key) && key !in Output(k, op)
  {
  }

  /** How often the run queues a notification for the subscription. */
  ghost function Times(k: Core, ops: seq<Op>, key: Key): nat {
    if ops == [] then 0
    else
      var n := |ops| - 1;
      Times(k, ops[..n], key) + if key in Output(Run(k, ops[..n]), ops[n]) then 1 else 0
  }

  predicate Publishes(op: Op, e: Event) {
    op.Publish? && op.event == e
  }

  /** How often the run publishes `e`. */
  function Pubs(ops: seq<Op>, e: Event): nat {
    if ops == [] then 0
    else
      var n := |ops| - 1;
      Pubs(ops[..n], e) + if Publishes(ops[n], e) then 1 else 0
  }

  ghost function Tally(w: Wrapper, e: Event): nat {
    if e in w.published then w.published[e] else 0
  }

  /** A subscription to exactly `n` publications of `e`, so far below that. */
  ghost predicate Waiting(w: Wrapper, e: Event, n: nat) {
    w.required == map[e := {n}] && Tally(w, e) < n
  }

  lemma {:induction false} SatisfiedOne(w: Wrapper, e: Event, n: nat)
    requires w.required == map[e := {n}] && n >= 1
    ensures Satisfied(w.required, w.published) <==> Tally(w, e) == n
  {
    assert e in w.required && n in w.required[e];
  }

  lemma {:induction false} WaitingStep(k: Core, op: Op, key: Key, e: Event, n: nat)
    requires Inv(k) && InPlace(k, key) && Waiting(Of(k, key), e, n) && Keeps(op, key)
    ensures InPlace(Next(k, op), key) && Waiting(Of(Next(k, op), key), e, n)
    ensures var t, t' := Tally(Of(k, key), e), Tally(Of(Next(k, op), key), e);
            && (key in Output(k, op) <==> Tells(k, op, key, e) && t + 1 == n)
            && t' == if !Tells(k, op, key, e) then t else if t + 1 == n then 0 else t + 1
  {
    hide Next, Output, Reached, Satisfied, Reaches, Keeps;
    if op.Publish? {
      PublishAt(k, op, key);
      var w := Of(k, key);
      assert Quiet(w);
      SatisfiedOne(Bump(w, op.event, op.meta), e, n);
      SatisfiedOne(w, e, n);
    } else {
      KeptAt(k, op, key);
    }
  }

  /** A publication of `e` that reaches the subscription. */
  ghost predicate Tells(k: Core, op: Op, key: Key, e: Event) {
    Publishes(op, e) && Reaches(k, op, key)
  }

  /** How many publications of `e` reach the subscription in the run. */
  ghost function Heard(k: Core, ops: seq<Op>, key: Key, e: Event): nat {
    if ops == [] then 0
    else
      var n := |ops| - 1;
      Heard(k, ops[..n], key, e) + if Tells(Run(k, ops[..n]), ops[n], key, e) then 1 else 0
  }

  lemma {:induction false} WaitingRun(k: Core, ops: seq<Op>, key: Key, e: Event, n: nat)
    requires Inv(k) && AllByName(ops) && AllKeep(ops, key)
    requires InPlace(k, key) && Waiting(Of(k, key), e, n) && Tally(Of(k, key), e) == 0
    ensures InPlace(Run(k, ops), key) && Waiting(Of(Run(k, ops), key), e, n)
    ensures Heard(k, ops, key, e) == n * Times(k, ops, key) + Tally(Of(Run(k, ops), key), e)
  {
    hide Next, Output, Inv, ByName, Keeps, Waiting, Tally, Tells;
    if ops != [] {
      var j := |ops| - 1;
      WaitingRun(k, ops[..j], key, e, n);
      RunKeepsInv(k, ops[..j]);
      WaitingStep(Run(k, ops[..j]), ops[j], key, e, n);
      assert forall q :: n * (q + 1) == n * q + n;
    }
  }

  /** A subscription to `e:n` is queued exactly floor(k / n) times by the k publications of `e`
      that reach it, whatever else happens in between. */
  lemma {:induction false} NotifiedEveryNth(k: Core, ops: seq<Op>, key: Key, e: Event, n: nat)
    requires Inv(k) && AllByName(ops) && AllKeep(ops, key) && n >= 1
    requires InPlace(k, key) && Of(k, key).required == map[e := {n}] && Of(k, key).published == map[]
    ensures Times(k, ops, key) == Heard(k, ops, key, e) / n
  {
    WaitingRun(k, ops, key, e, n);
    DivMod(Heard(k, ops, key, e), n, Times(k, ops, key), Tally(Of(Run(k, ops), key), e));
  }

  /** All publications of `e` reach it exactly when none of them leaves early before it. */
  lemma {:induction false} HeardAll(k: Core, ops: seq<Op>, key: Key, e: Event)
    ensures Heard(k, ops, key, e) <= Pubs(ops, e)
    ensures Heard(k, ops, key, e) == Pubs(ops, e) <==>
      forall j :: 0 <= j < |ops| && Publishes(ops[j], e) ==> Reaches(Run(k, ops[..j]), ops[j], key)
  {
    hide Reaches, Run;
    if ops != [] {
      var n := |ops| - 1;
      HeardAll(k, ops[..n], key, e);
      assert forall j :: 0 <= j < n ==> ops[..n][..j] == ops[..j] && ops[..n][j] == ops[j];
    }
  }

  /** In particular when all subscriptions are harmless. */
  lemma {:induction false} HarmlessHeard(k: Core, ops: seq<Op>, key: Key, e: Event)
    requires IndexClosed(k) && HarmlessRun(k, ops) && e in k.index && key.0 in k.index[e]
    ensures Heard(k, ops, key, e) == Pubs(ops, e)
  {
    hide Next, IndexClosed, HarmlessRun;
    forall j | 0 <= j < |ops| && Publishes(ops[j], e) ensures Reaches(Run(k, ops[..j]), ops[j], key) {
      var k' := Run(k, ops[..j]);
      ClosedUpTo(k, ops, j);
      ClosedNoExit(k', ops[j]);
      IndexGrows(k, ops[..j], e, key.0);
      ReachedAll(k'.subs.Keys, Lookup(k'.index, e));
    }
    HeardAll(k, ops, key, e);
  }

  lemma {:induction false} IndexGrows(k: Core, ops: seq<Op>, e: Event, i: Event)
    requires i in Lookup(k.index, e)
    ensures i in Lookup(Run(k, ops).index, e)
  {
    if ops != [] {
      IndexGrows(k, ops[..|ops| - 1], e, i);
    }
  }

  /** Subscribing with the single string "e:n" puts such a subscription in place. */
  lemma {:induction false} SubscribeToNth(k: Core, c: Client, addr: string, e: Event, n: nat, meta: string)
    requires e != "" && ':' !in e && n < 0x8000_0000
    ensures var op := Subscribe(c, addr, [e + ":" + Show(n)], NAME, meta);
            && ByName(op)
            && ParsedPrefix(op.events) == [(e, n)]
            && InPlace(Next(k, op), (e, c))
            && Of(Next(k, op), (e, c)).required == map[e := {n}]
            && Of(Next(k, op), (e, c)).published == map[]
  {
    var events := [e + ":" + Show(n)];
    ParseEventInverts(e, n);
    assert ParsedPrefix(events[1..]) == [];
    var ps := ParsedPrefix(events);
    assert ps == [(e, n)];
    assert Names(ps) == {e} && Counts(ps, e) == {n} by {
      assert ps[0].0 == e && ps[0].1 == n;
    }
    assert RequiredOf(ps) == map[e := {n}];
  }

  /** The step puts the subscription in place. */
  predicate Places(op: Op, key: Key) {
    op.Subscribe? && op.client == key.1 && ParsedPrefix(op.events) != [] && ParsedPrefix(op.events)[0].0 == key.0
  }

  ghost predicate NonePlaces(ops: seq<Op>, key: Key) {
    forall j :: 0 <= j < |ops| ==> !Places(ops[j], key)
  }

  /** Nobody is notified for a subscription that was never made. */
  lemma {:induction false} AbsentRun(k: Core, ops: seq<Op>, key: Key)
    requires !InPlace(k, key) && NonePlaces(ops, key)
    ensures !InPlace(Run(k, ops), key) && Times(k, ops, key) == 0
  {
    if ops != [] {
      var n := |ops| - 1;
      AbsentRun(k, ops[..n], key);
      AbsentStep(Run(k, ops[..n]), ops[n], key);
    }
  }

  lemma {:induction false} AbsentStep(k: Core, op: Op, key: Key)
    requires !InPlace(k, key) && !Places(op, key)
    ensures !InPlace(Next(k, op), key) && key !in Output(k, op)
  {
  }

  /** A requirement that no further publication can meet. */
  ghost predicate Hopeless(w: Wrapper) {
    exists e: Event, n: int :: e in w.required && n in w.required[e] && Missed(w, e, n)
  }

  /** Another count is required of the same event, or this one has been passed or is not positive. */
  ghost predicate Missed(w: Wrapper, e: Event, n: int)
    requires e in w.required
  {
    (exists m: int :: m in w.required[e] && m != n) || Tally(w, e) > n || n <= 0
  }

  lemma {:induction false} HopelessStep(k: Core, op: Op, key: Key)
    requires Inv(k) && InPlace(k, key) && Hopeless(Of(k, key)) && Keeps(op, key)
    ensures InPlace(Next(k, op), key) && Hopeless(Of(Next(k, op), key))
    ensures key !in Output(k, op)
  {
    if op.Publish? {
      PublishAt(k, op, key);
      HopelessBump(Of(k, key), op.event, op.meta);
    } else {
      KeptAt(k, op, key);
    }
  }

  lemma {:induction false} HopelessBump(w: Wrapper, x: Event, meta: string)
    requires Hopeless(w) && Quiet(w)
    ensures Hopeless(Bump(w, x, meta)) && !Bump(w, x, meta).iftrigure
  {
    var e: Event, n: int :| e in w.required && n in w.required[e] && Missed(w, e, n);
    var b := Bump(w, x, meta);
    assert Tally(b, e) >= Tally(w, e);
    assert Missed(b, e, n);
    HopelessUnmet(b, e, n);
  }

  lemma {:induction false} HopelessUnmet(w: Wrapper, e: Event, n: int)
    requires e in w.required && n in w.required[e] && Missed(w, e, n)
    requires e in w.published ==> w.published[e] >= 1
    ensures !Satisfied(w.required, w.published)
  {
    if e in w.published && w.published[e] == n && n > 0 {
      var m: int :| m in w.required[e] && m != n;
      Unmet(w.required, w.published, e, m);
    } else {
      Unmet(w.required, w.published, e, n);
    }
  }

  /** Once hopeless, a subscription is never notified again while it stays in place. */
  lemma {:induction false} PermanentSilence(k: Core, ops: seq<Op>, key: Key)
    requires Inv(k) && AllByName(ops) && AllKeep(ops, key)
    requires InPlace(k, key) && Hopeless(Of(k, key))
    ensures InPlace(Run(k, ops), key) && Hopeless(Of(Run(k, ops), key))
    ensures Times(k, ops, key) == 0
  {
    hide Next, Output, Inv, ByName, Keeps, Hopeless;
    if ops != [] {
      var j := |ops| - 1;
      PermanentSilence(k, ops[..j], key);
      RunKeepsInv(k, ops[..j]);
      HopelessStep(Run(k, ops[..j]), ops[j], key);
    }
  }

  // ---------- And every other subscription can still be notified ----------

  /** Required events whose count is still short. */
  ghost function Short(w: Wrapper): set<Event> {
    set e | e in w.required && exists n: int :: n in w.required[e] && Tally(w, e) < n
  }

  lemma {:induction false} ShortExists(w: Wrapper)
    requires Quiet(w) && !Hopeless(w)
    ensures Short(w) != {}
  {
    if Short(w) == {} {
      forall e: Event, n: int | e in w.required && n in w.required[e] ensures e in w.published && w.published[e] == n {
        assert !Missed(w, e, n);
        assert e !in Short(w);
      }
      assert Satisfied(w.required, w.published);
    }
  }

  lemma {:induction false} ShortBump(w: Wrapper, e: Event, n: nat, meta: string)
    requires Quiet(w) && !Hopeless(w) && e in w.required && n in w.required[e] && Tally(w, e) < n
    ensures var b := Bump(w, e, meta);
            && !Hopeless(b) && Short(b) <= Short(w) && Tally(b, e) == Tally(w, e) + 1
            && (Tally(b, e) == n ==> e !in Short(b))
  {
    var b := Bump(w, e, meta);
    forall x: Event, m: int | x in b.required && m in b.required[x] ensures !Missed(b, x, m) {
      assert !Missed(w, x, m);
      assert !Missed(w, e, n);
    }
    assert !Missed(w, e, n);
  }

  lemma {:induction false} RunCons(k: Core, op: Op, ops: seq<Op>)
    ensures Run(k, [op] + ops) == Run(Next(k, op), ops)
  {
    hide Next;
    if ops == [] {
      assert [op] + ops == [op];
      assert Run(k, [op][..0]) == k;
    } else {
      var n := |ops| - 1;
      assert ([op] + ops)[..|ops|] == [op] + ops[..n];
      RunCons(k, op, ops[..n]);
    }
  }

  ghost predicate OnlyPublishes(ops: seq<Op>) {
    forall j :: 0 <= j < |ops| ==> ops[j].Publish?
  }

  /** A subscription that is not hopeless is notified by some sequence of publications. */
  lemma {:induction false} StillNotifiable(k: Core, key: Key) returns (ops: seq<Op>, last: Op)
    requires Inv(k) && InPlace(k, key) && !Hopeless(Of(k, key))
    ensures OnlyPublishes(ops) && last.Publish? && key in Output(Run(k, ops), last)
  {
    var e, n := ShortOne(k, key);
    ops, last := NotifiableBy(k, key, e, n);
  }

  lemma {:induction false} NotifiableBy(k: Core, key: Key, e: Event, n: nat) returns (ops: seq<Op>, last: Op)
    requires Inv(k) && InPlace(k, key) && !Hopeless(Of(k, key))
    requires e in Of(k, key).required && n in Of(k, key).required[e] && Tally(Of(k, key), e) < n
    ensures OnlyPublishes(ops) && last.Publish? && key in Output(Run(k, ops), last)
    decreases |Short(Of(k, key))|, n - Tally(Of(k, key), e), if Reaches(k, Publish(e, ""), key) then 0 else 1
  {
    hide Next, Output, Inv, Hopeless, Short, Tally, Run, Reaches;
    var op := Publish(e, "");
    var k' := Next(k, op);
    if Reaches(k, op, key) {
      NotifiableStep(k, key, e, n);
    } else {
      UnreachedStep(k, key, e);
    }
    if key in Output(k, op) {
      RunNothing(k);
      return [], op;
    }
    var rest;
    if Tally(Of(k', key), e) < n {
      rest, last := NotifiableBy(k', key, e, n);
    } else {
      var e', n' := ShortOne(k', key);
      rest, last := NotifiableBy(k', key, e', n');
    }
    ops := [op] + rest;
    RunCons(k, op, rest);
  }

  /** A publication that leaves early changes nothing for a subscription behind the exit, and
      its notify pass creates the client maps whose absence stopped it. */
  lemma {:induction false} UnreachedStep(k: Core, key: Key, e: Event)
    requires Inv(k) && InPlace(k, key) && e in Of(k, key).required && !Reaches(k, Publish(e, ""), key)
    ensures var k' := Next(k, Publish(e, ""));
            && Inv(k') && InPlace(k', key) && Of(k', key) == Of(k, key)
            && Reaches(k', Publish(e, ""), key)
  {
    var op := Publish(e, "");
    PublishAt(k, op, key);
    PublishKeepsInv(k, op);
    ReachedAll(Next(k, op).subs.Keys, Lookup(k.index, e));
  }

  lemma {:induction false} RunNothing(k: Core)
    ensures Run(k, []) == k
  {
  }

  lemma {:induction false} ShortOne(k: Core, key: Key) returns (e: Event, n: nat)
    requires Inv(k) && InPlace(k, key) && !Hopeless(Of(k, key))
    ensures e in Of(k, key).required && n in Of(k, key).required[e] && Tally(Of(k, key), e) < n
  {
    var w := Of(k, key);
    assert Quiet(w);
    ShortExists(w);
    e :| e in Short(w);
    var m: int :| m in w.required[e] && Tally(w, e) < m;
    n := m;
  }

  lemma {:induction false} NotifiableStep(k: Core, key: Key, e: Event, n: nat)
    requires Inv(k) && InPlace(k, key) && !Hopeless(Of(k, key)) && Reaches(k, Publish(e, ""), key)
    requires e in Of(k, key).required && n in Of(k, key).required[e] && Tally(Of(k, key), e) < n
    ensures var k' := Next(k, Publish(e, ""));
      && Inv(k') && InPlace(k', key)
      && (key !in Output(k, Publish(e, "")) ==>
          && !Hopeless(Of(k', key)) && Of(k', key).required == Of(k, key).required
          && Tally(Of(k', key), e) == Tally(Of(k, key), e) + 1
          && |Short(Of(k', key))| <= |Short(Of(k, key))|
          && (Tally(Of(k', key), e) == n ==> |Short(Of(k', key))| < |Short(Of(k, key))|))
  {
    hide Satisfied, Missed;
    var op := Publish(e, "");
    var k' := Next(k, op);
    var w := Of(k, key);
    assert Quiet(w);
    ShortBump(w, e, n, "");
    PublishAt(k, op, key);
    PublishKeepsInv(k, op);
    var b := Bump(w, e, "");
    if !b.iftrigure {
      SubsetSize(Short(b), Short(w));
      if Tally(b, e) == n {
        assert e in Short(w);
        SubsetSize(Short(b), Short(w) - {e});
      }
    }
  }

  // ---------- What the early exit can cost ----------

  /** The index events without a client map. */
  ghost function Orphans(k: Core): set<Event> {
    set e, i | e in k.index && i in k.index[e] && i !in k.subs :: i
  }

  ghost predicate LeavesEarly(k: Core, op: Op) {
    op.Publish? && !(Lookup(k.index, op.event) <= k.subs.Keys)
  }

  /** How many publications of the run leave early. */
  ghost function Exits(k: Core, ops: seq<Op>): nat {
    if ops == [] then 0
    else
      var n := |ops| - 1;
      Exits(k, ops[..n]) + if LeavesEarly(Run(k, ops[..n]), ops[n]) then 1 else 0
  }

  /** How many subscriptions of the run are not harmless. */
  ghost function Harmful(k: Core, ops: seq<Op>): nat {
    if ops == [] then 0
    else
      var n := |ops| - 1;
      Harmful(k, ops[..n]) + if Harmless(Run(k, ops[..n]), ops[n]) then 0 else 1
  }

  /** A publication makes no orphans, and one that leaves early adopts the one that stopped it. */
  lemma {:induction false} PublishOrphans(k: Core, op: Op)
    requires op.Publish?
    ensures |Orphans(Next(k, op))| + (if LeavesEarly(k, op) then 1 else 0) <= |Orphans(k)|
  {
    hide BumpAll, TakenAll, Reached;
    var o, o' := Orphans(k), Orphans(Next(k, op));
    assert o' <= o;
    SubsetSize(o', o);
    if LeavesEarly(k, op) {
      var x :| x in Lookup(k.index, op.event) && x !in k.subs;
      assert x in o && x !in o';
      SubsetSize(o', o - {x});
    }
  }

  lemma {:induction false} OrphanFrom(k: Core, op: Op, i: Event)
    requires op.Subscribe? && i in Orphans(Next(k, op))
    ensures i in Orphans(k) || (!Harmless(k, op) && i == ParsedPrefix(op.events)[0].0)
  {
    hide ParsedPrefix, RequiredOf, Indexed;
    var ps := ParsedPrefix(op.events);
    if ps != [] {
      var k' := Next(k, op);
      var e :| e in k'.index && i in k'.index[e] && i !in k'.subs;
      assert k'.index == Indexed(k.index, ps, ps[0].0) && i in Lookup(k'.index, e);
      IndexedIs(k.index, ps, ps[0].0, e, i);
    }
  }

  /** A subscription makes at most one orphan, and none if it is harmless. */
  lemma {:induction false} SubscribeOrphans(k: Core, op: Op)
    requires !op.Publish?
    ensures |Orphans(Next(k, op))| <= |Orphans(k)| + if Harmless(k, op) then 0 else 1
  {
    var o, o' := Orphans(k), Orphans(Next(k, op));
    if op.Unsubscribe? {
      assert Next(k, op).subs.Keys == k.subs.Keys && Next(k, op).index == k.index;
      assert o' == o;
    } else {
      hide Orphans, Next, Harmless, ParsedPrefix;
      var made := if Harmless(k, op) then {} else {ParsedPrefix(op.events)[0].0};
      forall i | i in o' ensures i in o + made {
        OrphanFrom(k, op, i);
      }
      SubsetSize(o', o + made);
    }
  }

  /** Over every run: each early exit is paid for by a subscription that was not harmless, or by an
      orphan there was at the start. */
  lemma {:induction false} ExitsBounded(k: Core, ops: seq<Op>)
    ensures Exits(k, ops) + |Orphans(Run(k, ops))| <= Harmful(k, ops) + |Orphans(k)|
  {
    hide Next, Orphans, LeavesEarly, Harmless;
    if ops != [] {
      var n := |ops| - 1;
      var k', op := Run(k, ops[..n]), ops[n];
      ExitsBounded(k, ops[..n]);
      if op.Publish? {
        PublishOrphans(k', op);
      } else {
        SubscribeOrphans(k', op);
      }
      OnlyPublicationsLeave(k', op);
    }
  }

  lemma {:induction false} OnlyPublicationsLeave(k: Core, op: Op)
    ensures LeavesEarly(k, op) ==> op.Publish?
    ensures op.Publish? ==> Harmless(k, op)
  {
  }

  /** A run in two parts. */
  lemma {:induction false} RunAppend(k: Core, a: seq<Op>, b: seq<Op>)
    ensures Run(k, a + b) == Run(Run(k, a), b)
    ensures Harmful(k, a + b) == Harmful(k, a) + Harmful(Run(k, a), b)
  {
    hide Next, Harmless;
    if b == [] {
      assert a + b == a;
    } else {
      var n := |b| - 1;
      assert (a + b)[..|a| + n] == a + b[..n];
      RunAppend(k, a, b[..n]);
    }
  }

  /** A publication of the event misses a subscription only by leaving early. */
  lemma {:induction false} MissedByExits(k: Core, ops: seq<Op>, key: Key, e: Event)
    requires key.0 in Lookup(k.index, e)
    ensures Pubs(ops, e) <= Heard(k, ops, key, e) + Exits(k, ops)
  {
    hide Next;
    if ops != [] {
      var n := |ops| - 1;
      var k' := Run(k, ops[..n]);
      MissedByExits(k, ops[..n], key, e);
      IndexGrows(k, ops[..n], e, key.0);
      if Publishes(ops[n], e) && !LeavesEarly(k', ops[n]) {
        ReachedAll(k'.subs.Keys, Lookup(k'.index, e));
      }
    }
  }

  /** A subscription misses at most one publication of an event for each subscription of the whole
      run that was not harmless. */
  lemma {:induction false} MissedAtMost(before: seq<Op>, after: seq<Op>, key: Key, e: Event)
    requires key.0 in Lookup(Run(EMPTY, before).index, e)
    ensures Pubs(after, e) - Heard(Run(EMPTY, before), after, key, e) <= Harmful(EMPTY, before + after)
  {
    hide Run, Heard, Pubs, Exits, Harmful;
    var k := Run(EMPTY, before);
    MissedByExits(k, after, key, e);
    ExitsBounded(k, after);
    ExitsBounded(EMPTY, before);
    RunAppend(EMPTY, before, after);
    assert Orphans(EMPTY) == {};
  }

  /** So a subscription to `e:n` is notified at least floor((k - h) / n) and at most floor(k / n)
      times by k publications of `e`, where h subscriptions of the whole run were not harmless. */
  lemma {:induction false} NotifiedBetween(before: seq<Op>, after: seq<Op>, key: Key, e: Event, n: nat)
    requires AllByName(before) && AllByName(after) && AllKeep(after, key) && n >= 1
    requires var k := Run(EMPTY, before);
             InPlace(k, key) && Of(k, key).required == map[e := {n}] && Of(k, key).published == map[]
    ensures var k, pubs := Run(EMPTY, before), Pubs(after, e);
            (pubs - Harmful(EMPTY, before + after)) / n <= Times(k, after, key) <= pubs / n
  {
    hide Run, Heard, Pubs, Harmful, Times, Inv, InPlace, Of, Lookup, Reaches;
    var k := Run(EMPTY, before);
    EmptyStart();
    RunKeepsInv(EMPTY, before);
    FiledAt(k, key, e);
    NotifiedEveryNth(k, after, key, e, n);
    MissedAtMost(before, after, key, e);
    HeardAll(k, after, key, e);
    DivMonotone(Heard(k, after, key, e), Pubs(after, e), n);
    DivMonotone(Pubs(after, e) - Harmful(EMPTY, before + after), Heard(k, after, key, e), n);
  }

  // ---------- Whose subscription it is ----------

  /** The request makes the subscription: all its strings parse, and the first names the index event. */
  predicate Makes(op: Op, key: Key) {
    && op.Subscribe? && op.client == key.1
    && var ps := ParsedPrefix(op.events);
       ps != [] && |ps| == |op.events| && ps[0].0 == key.0
  }

  /** The request that made the subscription now in place: the last one that did, unless it was
      unsubscribed since. */
  function MadeBy(ops: seq<Op>, key: Key): Option<Op> {
    if ops == [] then None
    else
      var n := |ops| - 1;
      if Makes(ops[n], key) then Some(ops[n])
      else if ops[n] == Unsubscribe(key.0, key.1) then None
      else MadeBy(ops[..n], key)
  }

  /** What a subscription has from its request. */
  ghost predicate Owned(w: Wrapper, r: Op) {
    && r.Subscribe? && w.peerURL == r.addr && w.clientID == r.client && w.subMetadata == r.meta
    && w.matchType == r.matchType && w.required == RequiredOf(ParsedPrefix(r.events))
  }

  /** The parts of a wrapper that only its request sets. */
  ghost predicate SameOwner(w: Wrapper, w': Wrapper) {
    && w'.peerURL == w.peerURL && w'.clientID == w.clientID && w'.subMetadata == w.subMetadata
    && w'.matchType == w.matchType && w'.required == w.required
  }

  lemma {:induction false} MakesOwned(k: Core, op: Op, key: Key)
    requires Makes(op, key)
    ensures InPlace(Next(k, op), key) && Owned(Of(Next(k, op), key), op) && Of(Next(k, op), key).published == map[]
  {
  }

  lemma {:induction false} UnsubscribedGone(k: Core, key: Key, x: Key)
    ensures var k' := Next(k, Unsubscribe(key.0, key.1));
            && !InPlace(k', key)
            && (x != key ==> (InPlace(k', x) <==> InPlace(k, x)) && (InPlace(k, x) ==> Of(k', x) == Of(k, x)))
  {
  }

  /** No other step changes whose it is. */
  lemma {:induction false} OwnerStep(k: Core, op: Op, key: Key)
    requires !Makes(op, key) && op != Unsubscribe(key.0, key.1)
    ensures InPlace(Next(k, op), key) <==> InPlace(k, key)
    ensures InPlace(k, key) ==> SameOwner(Of(k, key), Of(Next(k, op), key))
  {
    if op.Publish? {
      hide Satisfied, Reached;
      if InPlace(Next(k, op), key) {
        PublishedFrom(k, op, key.0, key.1);
      }
    } else {
      hide RequiredOf, Indexed;
    }
  }

  /** Over every run: a subscription is in place exactly when some request made it and it was not
      unsubscribed since, and then address, client and metadata are those of that request. */
  lemma {:induction false} InPlaceBy(ops: seq<Op>, key: Key)
    ensures InPlace(Run(EMPTY, ops), key) <==> MadeBy(ops, key).Some?
    ensures MadeBy(ops, key).Some? ==>
      Makes(MadeBy(ops, key).value, key) && Owned(Of(Run(EMPTY, ops), key), MadeBy(ops, key).value)
  {
    hide Next, Makes;
    if ops != [] {
      var n := |ops| - 1;
      var k := Run(EMPTY, ops[..n]);
      InPlaceBy(ops[..n], key);
      if Makes(ops[n], key) {
        MakesOwned(k, ops[n], key);
      } else if ops[n] == Unsubscribe(key.0, key.1) {
        UnsubscribedGone(k, key, key);
      } else {
        OwnerStep(k, ops[n], key);
      }
    }
  }

  /** Between steps no flag is up. */
  ghost predicate FlagsDown(k: Core) {
    forall i, c :: i in k.subs && c in k.subs[i] ==> !k.subs[i][c].iftrigure
  }

  lemma {:induction false} FlagsStayDown(k: Core, op: Op)
    requires FlagsDown(k)
    ensures FlagsDown(Next(k, op))
  {
    var k' := Next(k, op);
    forall i, c | i in k'.subs && c in k'.subs[i] ensures !k'.subs[i][c].iftrigure {
      if op.Publish? {
        hide Satisfied;
        ReachedKnown(k.subs.Keys, Lookup(k.index, op.event));
      }
    }
  }

  /** A subscription notified by a publication carries the metadata of that publication, and is
      otherwise what it was. */
  lemma {:induction false} NotifiedWith(k: Core, op: Op, key: Key)
    requires FlagsDown(k) && op.Publish? && key in Output(k, op)
    ensures InPlace(k, key)
    ensures var subs := Counted(k.subs, Reached(k.subs.Keys, Lookup(k.index, op.event)), op.event, op.meta);
            && key.0 in subs && key.1 in subs[key.0]
            && SameOwner(Of(k, key), subs[key.0][key.1]) && subs[key.0][key.1].pubMetadata == op.meta
  {
    hide Satisfied, Reached;
  }
}
