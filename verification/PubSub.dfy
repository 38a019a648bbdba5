/**
 The matching engine as the server runs it: global maps that subscribing, publishing and the
 notify pass update in nested loops. Each method is proved against the transitions of
 PubSubCore. The index events of a publication are counted in string order, since the pass may
 leave early; everything else is visited in an arbitrary order.
 */
module PubSub {
  import opened Common
  import opened EventSyntax
  import opened StringOrder
  import opened PubSubCore

  datatype NotifyInfo = NotifyInfo(addr: string, metaInfo: string, clientid: string)

  lemma {:induction false} ParsedPrefixAt(events: seq<string>, i: nat)
    requires i <= |ParsedPrefix(events)| && i < |events|
    ensures i < |ParsedPrefix(events)| <==> ParseEvent(events[i]).Ok?
    ensures ParseEvent(events[i]).Ok? ==> ParsedPrefix(events)[i] == ParseEvent(events[i]).value
  {
    if i > 0 {
      ParsedPrefixAt(events[1..], i - 1);
    }
  }

  lemma {:induction false} ParsedNothing()
    ensures ParsedPrefix([]) == []
  {
  }

  lemma {:induction false} RequiredStep(ps: seq<(Event, int)>, i: nat)
    requires i < |ps|
    ensures var r := RequiredOf(ps[..i]); var (e, n) := ps[i];
            RequiredOf(ps[..i + 1]) == r[e := (if e in r then r[e] else {}) + {n}]
  {
    hide Names, Counts;
    var a, p := ps[..i], ps[i];
    assert ps[..i + 1] == a + [p];
    NamesAppend(a, p);
    forall e ensures Counts(a + [p], e) == Counts(a, e) + if e == p.0 then {p.1} else {} {
      CountsAppend(a, p, e);
    }
    if p.0 !in Names(a) {
      CountsAbsent(a, p.0);
    }
    var r := RequiredOf(a);
    var r' := r[p.0 := (if p.0 in r then r[p.0] else {}) + {p.1}];
    assert RequiredOf(a + [p]).Keys == r'.Keys;
    forall e | e in r' ensures RequiredOf(a + [p])[e] == r'[e] {
      assert e != p.0 ==> Counts(a, e) + {} == Counts(a, e);
      assert {} + {p.1} == {p.1};
    }
  }

  lemma {:induction false} CountsAbsent(a: seq<(Event, int)>, e: Event)
    requires e !in Names(a)
    ensures Counts(a, e) == {}
  {
    forall i | 0 <= i < |a| ensures a[i].0 != e {
      assert a[i].0 in Names(a);
    }
  }

  lemma {:induction false} NamesAppend(a: seq<(Event, int)>, p: (Event, int))
    ensures Names(a + [p]) == Names(a) + {p.0}
  {
    var b := a + [p];
    assert b[|a|] == p;
    assert forall i :: 0 <= i < |a| ==> b[i] == a[i];
    forall e | e in Names(a) ensures e in Names(b) {
      var i :| 0 <= i < |a| && a[i].0 == e;
      assert b[i].0 == e;
    }
  }

  lemma {:induction false} CountsAppend(a: seq<(Event, int)>, p: (Event, int), e: Event)
    ensures Counts(a + [p], e) == Counts(a, e) + if e == p.0 then {p.1} else {}
  {
    var b := a + [p];
    assert b[|a|] == p;
    forall n | n in Counts(a, e) ensures n in Counts(b, e) {
      var i :| 0 <= i < |a| && a[i].0 == e && a[i].1 == n;
      assert b[i].0 == e && b[i].1 == n;
    }
  }

  lemma {:induction false} IndexedStep(index: Index, ps: seq<(Event, int)>, j: nat, i: Event)
    requires j < |ps|
    ensures var x := Indexed(index, ps[..j], i); var e := ps[j].0;
            Indexed(index, ps[..j + 1], i) == x[e := Lookup(x, e) + {i}]
  {
    hide Names;
    assert ps[..j + 1] == ps[..j] + [ps[j]];
    NamesAppend(ps[..j], ps[j]);
    var x := Indexed(index, ps[..j], i);
    var y := x[ps[j].0 := Lookup(x, ps[j].0) + {i}];
    var z := Indexed(index, ps[..j + 1], i);
    assert z.Keys == y.Keys;
    forall e | e in y ensures z[e] == y[e] {
      assert Lookup(index, e) + {i} + {i} == Lookup(index, e) + {i};
      assert Lookup(index, e) + {} + {i} == Lookup(index, e) + {i};
    }
  }

  lemma {:induction false} NothingIndexed(index: Index, i: Event)
    ensures Indexed(index, [], i) == index && RequiredOf([]) == map[]
  {
    assert Names([]) == {};
    assert Indexed(index, [], i).Keys == index.Keys;
    forall e | e in index ensures Indexed(index, [], i)[e] == index[e] {
    }
  }

  /** The pass over the listed events leaves early at one of them. */
  ghost predicate Stops(k: Core, events: seq<Event>) {
    exists j :: 0 <= j < |events| && !(Lookup(k.index, events[j]) <= k.subs.Keys)
  }

  /** The events of a list, counted one after the other up to the first that leaves early. */
  ghost function CountedList(k: Core, events: seq<Event>, meta: string): Subs {
    if events == [] then k.subs
    else
      var n := |events| - 1;
      var subs := CountedList(k, events[..n], meta);
      if Stops(k, events[..n]) then subs
      else Counted(subs, Reached(k.subs.Keys, Lookup(k.index, events[n])), events[n], meta)
  }

  ghost predicate Distinct<T>(s: seq<T>) {
    forall i, j :: 0 <= i < j < |s| ==> s[i] != s[j]
  }

  /** `queue` lists the notifications of the raised subscriptions `keys`. */
  ghost predicate Describes(queue: seq<NotifyInfo>, keys: seq<Key>, subs: Subs) {
    && |queue| == |keys|
    && forall j :: 0 <= j < |keys| ==> DescribesOne(queue[j], keys[j], subs)
  }

  ghost predicate DescribesOne(info: NotifyInfo, key: Key, subs: Subs) {
    && key.0 in subs && key.1 in subs[key.0]
    && var w := subs[key.0][key.1];
       info == NotifyInfo(w.peerURL, w.pubMetadata, w.clientID)
  }

  class Broker {
    var subtoClient: Subs
    var getIndexMap: Index
    var notifyQueue: seq<NotifyInfo>

    constructor ()
      ensures Abs() == EMPTY && notifyQueue == []
    {
      subtoClient, getIndexMap, notifyQueue := map[], map[], [];
    }

    ghost function Abs(): Core
      reads this
    {
      Core(subtoClient, getIndexMap)
    }

    method AddNewClient(clientid: Client, notifyAddr: string, eventList: seq<string>, matchType: string,
                        subMetadata: string) returns (ok: bool)
      modifies this`subtoClient, this`getIndexMap
      ensures Abs() == old(Subscribed(Abs(), clientid, notifyAddr, eventList, matchType, subMetadata))
      ensures ok <==> |eventList| > 0 && |ParsedPrefix(eventList)| == |eventList|
    {
      hide ParsedPrefix, Indexed, RequiredOf;
      ghost var ps := ParsedPrefix(eventList);
      if |eventList| == 0 {
        ParsedNothing();
        return false;
      }
      ParsedPrefixAt(eventList, 0);
      var first := ReadEvent(eventList[0]);
      if first.Throws? {
        return false;
      }
      var indexEvent := first.value.0;
      var required: map<Event, set<int>> := map[];
      ghost var index0 := getIndexMap;
      NothingIndexed(index0, indexEvent);
      assert ps[..0] == [];
      for i := 0 to |eventList|
        invariant i <= |ps|
        invariant required == RequiredOf(ps[..i])
        invariant getIndexMap == Indexed(index0, ps[..i], indexEvent)
        invariant subtoClient == old(subtoClient)
      {
        ParsedPrefixAt(eventList, i);
        var p := ReadEvent(eventList[i]);
        if p.Throws? {
          assert ps[..i] == ps;
          return false;
        }
        var (e, num) := p.value;
        RequiredStep(ps, i);
        IndexedStep(index0, ps, i, indexEvent);
        required := required[e := (if e in required then required[e] else {}) + {num}];
        if e in getIndexMap {
          getIndexMap := getIndexMap[e := getIndexMap[e] + {indexEvent}];
        } else {
          assert {} + {indexEvent} == {indexEvent};
          getIndexMap := getIndexMap[e := {indexEvent}];
        }
      }
      assert ps[..|eventList|] == ps;
      var psw := Wrapper(notifyAddr, clientid, matchType, subMetadata, "", false, map[], required);
      var clients := if indexEvent in subtoClient then subtoClient[indexEvent] else map[];
      subtoClient := subtoClient[indexEvent := clients[clientid := psw]];
      return true;
    }

    method EventUnSubscribe(event: Event, clientId: Client)
      modifies this`subtoClient
      ensures Abs() == old(Unsubscribed(Abs(), event, clientId))
    {
      if event in subtoClient {
        if clientId in subtoClient[event] {
          subtoClient := subtoClient[event := subtoClient[event] - {clientId}];
        } else {
          assert subtoClient[event] - {clientId} == subtoClient[event];
          assert subtoClient[event := subtoClient[event]] == subtoClient;
        }
      }
    }

    /** The innermost loop of pubsubPublish: all clients under one index event. */
    method CountClients(i: Event, e: Event, meta: string)
      requires i in subtoClient
      modifies this`subtoClient
      ensures subtoClient == old(subtoClient)[i := BumpAll(old(subtoClient[i]), e, meta)]
    {
      hide Satisfied;
      var innermap := subtoClient[i];
      var todo := innermap.Keys;
      ghost var subs0 := subtoClient;
      assert Partly(innermap, {}, e, meta) == innermap;
      assert subs0[i := innermap] == subs0;
      ghost var done := {};
      while todo != {}
        invariant todo <= innermap.Keys && done == innermap.Keys - todo
        invariant subtoClient == subs0[i := Partly(innermap, done, e, meta)]
      {
        var c :| c in todo;
        var w := subtoClient[i][c];
        assert w == innermap[c];
        var before := if e in w.published then w.published[e] else 0;
        w := w.(published := w.published[e := before + 1]);
        var trigger := CheckIfTriggure(w);
        if trigger {
          w := w.(pubMetadata := meta, iftrigure := true);
        }
        assert w == Bump(innermap[c], e, meta);
        PartlyStep(innermap, done, c, e, meta);
        subtoClient := subtoClient[i := subtoClient[i][c := w]];
        todo, done := todo - {c}, done + {c};
      }
      assert done == innermap.Keys;
      assert Partly(innermap, done, e, meta) == BumpAll(innermap, e, meta);
    }

    /** One event through its index events; leaves at the first of them that has no client map. */
    method CountEvent(e: Event, meta: string) returns (exited: bool)
      modifies this`subtoClient
      ensures exited <==> !(Lookup(getIndexMap, e) <= old(subtoClient).Keys)
      ensures subtoClient
           == Counted(old(subtoClient), Reached(old(subtoClient).Keys, Lookup(getIndexMap, e)), e, meta)
      ensures subtoClient.Keys == old(subtoClient).Keys
    {
      hide BumpAll;
      ghost var subs0 := subtoClient;
      assert Counted(subs0, {}, e, meta) == subs0;
      if e !in getIndexMap {
        ReachedAll(subs0.Keys, {});
        return false;
      }
      var indexEventSet := getIndexMap[e];
      var todo := indexEventSet;
      ghost var done := {};
      while todo != {}
        invariant todo <= indexEventSet && done == indexEventSet - todo && done <= subs0.Keys
        invariant forall x, y :: x in done && y in todo ==> Less(x, y)
        invariant subtoClient == Counted(subs0, done, e, meta)
      {
        var i := Least(todo);
        if i !in subtoClient {
          LeftAt(subs0.Keys, indexEventSet, done, i);
          return true;
        }
        CountedStep(subs0, done, i, e, meta);
        CountClients(i, e, meta);
        todo, done := todo - {i}, done + {i};
      }
      assert done == indexEventSet;
      ReachedAll(subs0.Keys, indexEventSet);
      return false;
    }

    method PubSubPublish(eventList: seq<Event>, meta: string) returns (exited: bool)
      modifies this`subtoClient
      ensures exited <==> Stops(old(Abs()), eventList)
      ensures subtoClient == CountedList(old(Abs()), eventList, meta)
      ensures subtoClient.Keys == old(subtoClient).Keys
    {
      hide Counted;
      ghost var k := Abs();
      for j := 0 to |eventList|
        invariant subtoClient == CountedList(k, eventList[..j], meta)
        invariant subtoClient.Keys == k.subs.Keys && !Stops(k, eventList[..j])
      {
        assert eventList[..j + 1][..j] == eventList[..j];
        exited := CountEvent(eventList[j], meta);
        StopsStep(k, eventList, j);
        if exited {
          StaysStopped(k, eventList, j + 1, meta);
          return;
        }
      }
      assert eventList[..|eventList|] == eventList;
      return false;
    }

    /** Takes down the flag of one subscription, queues its notification, restarts its counters. */
    method CheckNotify(i: Event, c: Client)
      requires i in subtoClient && c in subtoClient[i]
      modifies this`subtoClient, this`notifyQueue
      ensures subtoClient == old(subtoClient[i := subtoClient[i][c := Taken(subtoClient[i][c])]])
      ensures notifyQueue == old(notifyQueue) + old(Entry(subtoClient[i][c]))
    {
      var psw := subtoClient[i][c];
      if !psw.iftrigure {
        assert subtoClient[i][c := psw] == subtoClient[i];
        assert subtoClient[i := subtoClient[i]] == subtoClient;
        return;
      }
      psw := psw.(iftrigure := false);
      notifyQueue := notifyQueue + [NotifyInfo(psw.peerURL, psw.pubMetadata, psw.clientID)];
      if psw.matchType == NAME {
        psw := psw.(published := map[]);
      }
      subtoClient := subtoClient[i := subtoClient[i][c := psw]];
    }

    /** One checkNotify task per client under the index event, whose client map is created if there
        is none. `keys` are the subscriptions queued. */
    method StartNotify(i: Event) returns (ghost keys: seq<Key>)
      modifies this`subtoClient, this`notifyQueue
      ensures subtoClient == old(subtoClient[i := TakenAll(At(subtoClient, i))])
      ensures Queues(old(notifyQueue), notifyQueue, keys, Raised(old(subtoClient), {i}), old(subtoClient))
    {
      keys := [];
      if i !in subtoClient {
        assert Raised(subtoClient, {i}) == {};
        subtoClient := subtoClient[i := map[]];
        assert TakenAll(map[]) == map[];
        return;
      }
      var subscribedMap := subtoClient[i];
      var todo := subscribedMap.Keys;
      ghost var subs0, queue0, done := subtoClient, notifyQueue, {};
      assert TakenPart(subscribedMap, {}) == subscribedMap;
      assert subs0[i := subscribedMap] == subs0;
      while todo != {}
        invariant todo <= subscribedMap.Keys && done == subscribedMap.Keys - todo
        invariant subtoClient == subs0[i := TakenPart(subscribedMap, done)]
        invariant Queues(queue0, notifyQueue, keys, RaisedAt(subs0, i, done), subs0)
      {
        var c :| c in todo;
        TakenStep(subscribedMap, done, c);
        QueuesStep(queue0, notifyQueue, keys, subs0, i, done, c);
        CheckNotify(i, c);
        if subscribedMap[c].iftrigure {
          keys := keys + [(i, c)];
        }
        todo, done := todo - {c}, done + {c};
      }
      assert done == subscribedMap.Keys;
      assert TakenPart(subscribedMap, done) == TakenAll(subscribedMap);
      assert RaisedAt(subs0, i, done) == Raised(subs0, {i});
    }

    /** The publish handler: count the listed events, then notify for the last one. */
    method Publish(eventList: seq<Event>, meta: string) returns (ghost keys: seq<Key>)
      modifies this`subtoClient, this`notifyQueue
      ensures |eventList| > 0 ==>
        var subs := CountedList(old(Abs()), eventList, meta);
        var via := Lookup(getIndexMap, eventList[|eventList| - 1]);
        && subtoClient == Notified(subs, via)
        && Queues(old(notifyQueue), notifyQueue, keys, Raised(subs, via), subs)
      ensures |eventList| == 0 ==> Abs() == old(Abs()) && notifyQueue == old(notifyQueue) && keys == []
    {
      hide CountedList, Counted;
      keys := [];
      assert CountedList(Abs(), [], meta) == subtoClient by { CountedNothing(Abs(), meta); }
      var _ := PubSubPublish(eventList, meta);
      if |eventList| == 0 {
        return;
      }
      var eventStr := eventList[|eventList| - 1];
      if eventStr in getIndexMap {
        keys := NotifyVia(getIndexMap[eventStr]);
      } else {
        assert Notified(subtoClient, {}) == subtoClient;
        assert Raised(subtoClient, {}) == {};
      }
    }

    /** The notify pass over the index events of one event. */
    method NotifyVia(indexEventSet: set<Event>) returns (ghost keys: seq<Key>)
      modifies this`subtoClient, this`notifyQueue
      ensures subtoClient == Notified(old(subtoClient), indexEventSet)
      ensures Queues(old(notifyQueue), notifyQueue, keys, Raised(old(subtoClient), indexEventSet), old(subtoClient))
    {
      hide Queues;
      var todo := indexEventSet;
      keys := [];
      ghost var subs0, queue0, done := subtoClient, notifyQueue, {};
      NothingQueued(queue0, subs0);
      while todo != {}
        invariant todo <= indexEventSet && done == indexEventSet - todo
        invariant subtoClient == Notified(subs0, done)
        invariant Queues(queue0, notifyQueue, keys, Raised(subs0, done), subs0)
      {
        var i :| i in todo;
        ghost var subs1, queue1 := subtoClient, notifyQueue;
        ghost var more := StartNotify(i);
        NotifiedStep(subs0, done, i);
        QueuesTrans(queue0, queue1, notifyQueue, keys, more, subs0, subs1, done, i);
        keys := keys + more;
        todo, done := todo - {i}, done + {i};
      }
      assert done == indexEventSet;
    }
  }

  /** The pass leaves at `i`, the first of the remaining index events. */
  lemma {:induction false} LeftAt(known: set<Event>, via: set<Event>, done: set<Event>, i: Event)
    requires done <= via && done <= known && i in via - done && i !in known
    requires forall x :: x in via - done && x != i ==> Less(i, x)
    requires forall x, y :: x in done && y in via - done ==> Less(x, y)
    ensures Reached(known, via) == done
  {
    forall x | x in via - done ensures x !in Reached(known, via) {
      Irreflexive(i);
      if x != i && Less(x, i) {
        Transitive(i, x, i);
      }
    }
  }

  lemma {:induction false} StopsStep(k: Core, events: seq<Event>, j: nat)
    requires j < |events| && !Stops(k, events[..j])
    ensures Stops(k, events[..j + 1]) <==> !(Lookup(k.index, events[j]) <= k.subs.Keys)
  {
    assert forall i :: 0 <= i < j ==> events[..j][i] == events[..j + 1][i];
    assert events[..j + 1][j] == events[j];
  }

  lemma {:induction false} StaysStopped(k: Core, events: seq<Event>, j: nat, meta: string)
    requires j <= |events| && Stops(k, events[..j])
    ensures Stops(k, events) && CountedList(k, events, meta) == CountedList(k, events[..j], meta)
  {
    var i :| 0 <= i < j && !(Lookup(k.index, events[..j][i]) <= k.subs.Keys);
    assert events[i] == events[..j][i];
    if j < |events| {
      var n := |events| - 1;
      assert events[..n][..j] == events[..j];
      StaysStopped(k, events[..n], j, meta);
    } else {
      assert events[..j] == events;
    }
  }

  lemma {:induction false} CountedNothing(k: Core, meta: string)
    ensures CountedList(k, [], meta) == k.subs
  {
  }

  lemma {:induction false} NothingQueued(queue: seq<NotifyInfo>, subs: Subs)
    ensures Notified(subs, {}) == subs
    ensures Queues(queue, queue, [], Raised(subs, {}), subs)
  {
    assert queue[|queue|..] == [];
  }

  lemma {:induction false} NotifiedStep(subs: Subs, done: set<Event>, i: Event)
    requires i !in done
    ensures At(Notified(subs, done), i) == At(subs, i)
    ensures Notified(subs, done + {i}) == Notified(subs, done)[i := TakenAll(At(subs, i))]
  {
    hide TakenAll;
  }

  lemma {:induction false} QueuesTrans(q0: seq<NotifyInfo>, q1: seq<NotifyInfo>, q2: seq<NotifyInfo>,
                                       keys: seq<Key>, more: seq<Key>, subs: Subs, subs1: Subs, done: set<Event>, i: Event)
    requires i !in done && subs1 == Notified(subs, done)
    requires Queues(q0, q1, keys, Raised(subs, done), subs)
    requires Queues(q1, q2, more, Raised(subs1, {i}), subs1)
    ensures Queues(q0, q2, keys + more, Raised(subs, done + {i}), subs)
  {
    hide Notified, TakenAll;
    NotifiedStep(subs, done, i);
    assert Raised(subs1, {i}) == Raised(subs, {i});
    assert Raised(subs, done + {i}) == Raised(subs, done) + Raised(subs, {i});
    var d0, d1, d2 := q1[|q0|..], q2[|q1|..], q2[|q0|..];
    assert q2[..|q1|] == q1;
    assert q2[..|q0|] == q1[..|q0|];
    assert d2 == d0 + d1;
    forall j | 0 <= j < |keys + more| ensures DescribesOne(d2[j], (keys + more)[j], subs) {
      if j < |keys| {
        assert DescribesOne(d0[j], keys[j], subs);
      } else {
        assert DescribesOne(d1[j - |keys|], more[j - |keys|], subs1);
        assert more[j - |keys|] in Raised(subs1, {i});
      }
    }
    assert forall k :: k in keys ==> k.0 in done;
    assert forall k :: k in more ==> k.0 == i;
  }

  function Entry(w: Wrapper): seq<NotifyInfo> {
    if w.iftrigure then [NotifyInfo(w.peerURL, w.pubMetadata, w.clientID)] else []
  }

  /** The queue grew by one entry for each subscription in `who`, listed by `keys`. */
  ghost predicate Queues(before: seq<NotifyInfo>, after: seq<NotifyInfo>, keys: seq<Key>, who: set<Key>, subs: Subs) {
    && |after| == |before| + |keys| && after[..|before|] == before
    && Describes(after[|before|..], keys, subs)
    && Distinct(keys)
    && forall k :: k in keys <==> k in who
  }

  function TakenPart(m: map<Client, Wrapper>, done: set<Client>): map<Client, Wrapper> {
    map c | c in m :: if c in done then Taken(m[c]) else m[c]
  }

  function RaisedAt(subs: Subs, i: Event, done: set<Client>): set<Key>
    requires i in subs
  {
    set c | c in done && c in subs[i] && subs[i][c].iftrigure :: (i, c)
  }

  lemma {:induction false} TakenStep(m: map<Client, Wrapper>, done: set<Client>, c: Client)
    requires c in m && c !in done
    ensures TakenPart(m, done)[c] == m[c]
    ensures TakenPart(m, done + {c}) == TakenPart(m, done)[c := Taken(m[c])]
  {
  }

  lemma {:induction false} QueuesStep(before: seq<NotifyInfo>, after: seq<NotifyInfo>, keys: seq<Key>, subs: Subs,
                                      i: Event, done: set<Client>, c: Client)
    requires i in subs && c in subs[i] && c !in done
    requires Queues(before, after, keys, RaisedAt(subs, i, done), subs)
    ensures var w := subs[i][c];
            Queues(before, after + Entry(w), keys + (if w.iftrigure then [(i, c)] else []), RaisedAt(subs, i, done + {c}), subs)
  {
    var w := subs[i][c];
    var after' := after + Entry(w);
    assert after'[|before|..] == after[|before|..] + Entry(w);
    assert (i, c) !in keys;
    if w.iftrigure {
      assert RaisedAt(subs, i, done + {c}) == RaisedAt(subs, i, done) + {(i, c)};
    } else {
      assert RaisedAt(subs, i, done + {c}) == RaisedAt(subs, i, done);
      assert keys + [] == keys;
      assert after' == after;
    }
  }

  /** `BumpAll` done for the clients in `done` only. */
  ghost function Partly(m: map<Client, Wrapper>, done: set<Client>, e: Event, meta: string): map<Client, Wrapper> {
    map c | c in m :: if c in done then Bump(m[c], e, meta) else m[c]
  }

  lemma {:induction false} PartlyStep(m: map<Client, Wrapper>, done: set<Client>, c: Client, e: Event, meta: string)
    requires c in m && c !in done
    ensures Partly(m, done + {c}, e, meta) == Partly(m, done, e, meta)[c := Bump(m[c], e, meta)]
  {
    hide Bump;
  }

  lemma {:induction false} CountedStep(subs: Subs, done: set<Event>, i: Event, e: Event, meta: string)
    requires i in subs && i !in done
    ensures Counted(subs, done, e, meta)[i] == subs[i]
    ensures Counted(subs, done + {i}, e, meta) == Counted(subs, done, e, meta)[i := BumpAll(subs[i], e, meta)]
  {
    hide BumpAll;
  }

  /** Its inner loop: the counts required of one event. */
  method MeetsAll(nums: set<int>, e: Event, published: map<Event, nat>) returns (ok: bool)
    ensures ok <==> forall n: int :: n in nums ==> e in published && published[e] == n
  {
    var todo := nums;
    while todo != {}
      invariant todo <= nums
      invariant forall n: int :: n in nums && n !in todo ==> e in published && published[e] == n
    {
      ghost var x := Member(todo);
      assert x in todo;
      var n: int :| n in todo;
      if e !in published || published[e] != n {
        return false;
      }
      todo := todo - {n};
    }
    return true;
  }

  /** checkIfTriggure: two nested loops over the required counts. */
  method CheckIfTriggure(w: Wrapper) returns (notify: bool)
    ensures notify <==> Satisfied(w.required, w.published)
  {
    var events := w.required.Keys;
    while events != {}
      invariant events <= w.required.Keys
      invariant forall e: Event, n: int :: e in w.required && e !in events && n in w.required[e] ==>
        e in w.published && w.published[e] == n
    {
      var e :| e in events;
      var ok := MeetsAll(w.required[e], e, w.published);
      if !ok {
        return false;
      }
      events := events - {e};
    }
    return true;
  }

  // ---------- Whole runs of the server ----------

  lemma {:induction false} DistinctCount(keys: seq<Key>, key: Key)
    requires Distinct(keys)
    ensures multiset(keys)[key] == if key in keys then 1 else 0
  {
    if keys != [] {
      var n := |keys| - 1;
      assert keys == keys[..n] + [keys[n]];
      DistinctCount(keys[..n], key);
    }
  }

  /** Subscriptions carry the id of their client. */
  ghost predicate Named(subs: Subs) {
    forall i, c :: i in subs && c in subs[i] ==> subs[i][c].clientID == c
  }

  lemma {:induction false} NamedNext(k: Core, op: Op)
    requires Named(k.subs)
    ensures Named(Next(k, op).subs)
    ensures op.Publish? ==>
      Named(Counted(k.subs, Reached(k.subs.Keys, Lookup(k.index, op.event)), op.event, op.meta))
  {
    hide Satisfied;
  }

  /** The queue entry of a subscription notified by a step: its own address and client, and the
      metadata of this publication. */
  ghost predicate Sends(k: Core, op: Op, key: Key, info: NotifyInfo) {
    op.Publish? && InPlace(k, key) && info == NotifyInfo(Of(k, key).peerURL, op.meta, key.1)
  }

  /** Executes one step of a run; `keys` are the subscriptions it queues. */
  method Execute(b: Broker, op: Op) returns (ghost keys: seq<Key>)
    requires Named(b.subtoClient) && FlagsDown(b.Abs())
    modifies b
    ensures b.Abs() == Next(old(b.Abs()), op)
    ensures Named(b.subtoClient) && FlagsDown(b.Abs())
    ensures |b.notifyQueue| == |old(b.notifyQueue)| + |keys| && old(b.notifyQueue) <= b.notifyQueue
    ensures forall j :: 0 <= j < |keys| ==>
      Sends(old(b.Abs()), op, keys[j], b.notifyQueue[|old(b.notifyQueue)| + j])
    ensures Distinct(keys) && forall key :: key in keys <==> key in Output(old(b.Abs()), op)
  {
    keys := [];
    ghost var k0, n := b.Abs(), |b.notifyQueue|;
    NamedNext(k0, op);
    FlagsStayDown(k0, op);
    match op
    case Subscribe(c, addr, events, matchType, meta) =>
      var _ := b.AddNewClient(c, addr, events, matchType, meta);
    case Unsubscribe(i, c) =>
      b.EventUnSubscribe(i, c);
    case Publish(e, meta) =>
      keys := b.Publish([e], meta);
      ghost var subs := CountedOne(k0, e, meta);
      forall j | 0 <= j < |keys| ensures Sends(k0, op, keys[j], b.notifyQueue[n + j]) {
        SendsOne(k0, op, keys[j], b.notifyQueue[n..][j], subs);
      }
  }

  lemma {:induction false} SendsOne(k: Core, op: Op, key: Key, info: NotifyInfo, subs: Subs)
    requires FlagsDown(k) && Named(k.subs) && op.Publish? && key in Output(k, op) && DescribesOne(info, key, subs)
    requires subs == Counted(k.subs, Reached(k.subs.Keys, Lookup(k.index, op.event)), op.event, op.meta)
    ensures Sends(k, op, key, info)
  {
    hide Counted, Reached, Output;
    NotifiedWith(k, op, key);
  }

  lemma {:induction false} CountedOne(k: Core, e: Event, meta: string) returns (subs: Subs)
    ensures subs == CountedList(k, [e], meta) == Counted(k.subs, Reached(k.subs.Keys, Lookup(k.index, e)), e, meta)
  {
    assert [e][..0] == [];
    assert !Stops(k, []);
    subs := CountedList(k, [e], meta);
  }

  /** Every subscription occurs in `log` as often as the run from `k` notifies it. */
  ghost predicate Tallied(k: Core, log: seq<Key>, ops: seq<Op>) {
    forall key: Key :: multiset(log)[key] == Times(k, ops, key)
  }

  lemma {:induction false} TalliedNothing(k: Core)
    ensures Tallied(k, [], [])
  {
  }

  lemma {:induction false} TalliedStep(k: Core, log: seq<Key>, keys: seq<Key>, ops: seq<Op>, j: nat)
    requires j < |ops| && Tallied(k, log, ops[..j]) && Distinct(keys)
    requires forall key :: key in keys <==> key in Output(Run(k, ops[..j]), ops[j])
    ensures Tallied(k, log + keys, ops[..j + 1])
  {
    hide Output, Run;
    forall key: Key ensures multiset(log + keys)[key] == Times(k, ops[..j + 1], key) {
      DistinctCount(keys, key);
      TimesSnoc(k, ops, j, key);
    }
  }

  lemma {:induction false} TimesSnoc(k: Core, ops: seq<Op>, j: nat, key: Key)
    requires j < |ops|
    ensures Times(k, ops[..j + 1], key)
         == Times(k, ops[..j], key) + if key in Output(Run(k, ops[..j]), ops[j]) then 1 else 0
  {
    assert ops[..j + 1][..j] == ops[..j];
  }

  /** The entries queued in a run from `k`, each with the subscription it is for and the step that
      queued it: address, metadata and client are as they should be, and the steps are in order. */
  ghost predicate Accounts(k: Core, ops: seq<Op>, entries: seq<NotifyInfo>, log: seq<Key>, at: seq<nat>) {
    && |entries| == |log| == |at|
    && (forall j :: 0 <= j < |log| ==> at[j] < |ops| && Sends(Run(k, ops[..at[j]]), ops[at[j]], log[j], entries[j]))
    && forall i, j :: 0 <= i < j < |at| ==> at[i] <= at[j]
  }

  lemma {:induction false} AccountsMore(k: Core, ops: seq<Op>, j: nat, entries: seq<NotifyInfo>, log: seq<Key>, at: seq<nat>,
                                        entries': seq<NotifyInfo>, keys: seq<Key>)
    requires j < |ops| && Accounts(k, ops[..j], entries, log, at)
    requires |entries'| == |entries| + |keys| && entries <= entries'
    requires forall i :: 0 <= i < |keys| ==> Sends(Run(k, ops[..j]), ops[j], keys[i], entries'[|entries| + i])
    ensures Accounts(k, ops[..j + 1], entries', log + keys, at + seq(|keys|, _ => j))
  {
    hide Run, Sends;
    var front, next, at' := ops[..j], ops[..j + 1], at + seq(|keys|, _ => j);
    assert forall t :: 0 <= t < j ==> front[t] == next[t] && front[..t] == next[..t];
    assert next[j] == ops[j] && next[..j] == front;
    forall i | 0 <= i < |log + keys|
      ensures at'[i] < |next| && Sends(Run(k, next[..at'[i]]), next[at'[i]], (log + keys)[i], entries'[i])
    {
      if i >= |log| {
        assert entries'[i] == entries'[|entries| + (i - |log|)];
      }
    }
  }

  /** Any further run of subscriptions, unsubscriptions and one-event publications: the queue
      grows by one entry per notification the transitions prescribe, for every subscription. */
  method RunFrom(b: Broker, ops: seq<Op>) returns (ghost log: seq<Key>, ghost at: seq<nat>)
    requires Named(b.subtoClient) && FlagsDown(b.Abs())
    modifies b
    ensures b.Abs() == Run(old(b.Abs()), ops) && Named(b.subtoClient) && FlagsDown(b.Abs())
    ensures old(b.notifyQueue) <= b.notifyQueue
    ensures Accounts(old(b.Abs()), ops, b.notifyQueue[|old(b.notifyQueue)|..], log, at)
    ensures Tallied(old(b.Abs()), log, ops)
  {
    hide Next, Output, Run, Named, FlagsDown, Times, Distinct, Tallied, Accounts, Sends;
    ghost var k, q := b.Abs(), |b.notifyQueue|;
    TalliedNothing(k);
    log, at := [], [];
    RunNothing(k);
    assert b.notifyQueue[q..] == [];
    NothingAccounted(k, ops[..0]);
    for j := 0 to |ops|
      invariant b.Abs() == Run(k, ops[..j]) && Named(b.subtoClient) && FlagsDown(b.Abs())
      invariant old(b.notifyQueue) <= b.notifyQueue
      invariant Accounts(k, ops[..j], b.notifyQueue[q..], log, at)
      invariant Tallied(k, log, ops[..j])
    {
      RunNext(k, ops, j);
      ghost var entries := b.notifyQueue[q..];
      ghost var keys := Execute(b, ops[j]);
      AccountsMore(k, ops, j, entries, log, at, b.notifyQueue[q..], keys);
      TalliedStep(k, log, keys, ops, j);
      log, at := log + keys, at + seq(|keys|, _ => j);
    }
    assert ops[..|ops|] == ops;
  }

  lemma {:induction false} NothingAccounted(k: Core, ops: seq<Op>)
    ensures Accounts(k, ops, [], [], [])
  {
  }

  /** A queue entry that answers publication `t` of the run: the address of the request that made
      the subscription, the metadata of the publication, and the client. */
  ghost predicate Answers(ops: seq<Op>, t: nat, key: Key, info: NotifyInfo) {
    && t < |ops| && ops[t].Publish? && MadeBy(ops[..t], key).Some?
    && var r := MadeBy(ops[..t], key).value;
       r.Subscribe? && info == NotifyInfo(r.addr, ops[t].meta, r.client)
  }

  /** Any run of the server: for each subscription one queue entry per notification, in the order of
      the publications, each with the address it was subscribed with and the metadata published. */
  method RunAll(ops: seq<Op>) returns (queue: seq<NotifyInfo>, ghost log: seq<Key>, ghost at: seq<nat>)
    ensures |queue| == |log| == |at|
    ensures forall j :: 0 <= j < |queue| ==> Answers(ops, at[j], log[j], queue[j])
    ensures forall i, j :: 0 <= i < j < |at| ==> at[i] <= at[j]
    ensures Tallied(EMPTY, log, ops)
  {
    hide Run, Tallied, MadeBy;
    var b := new Broker();
    log, at := RunFrom(b, ops);
    queue := b.notifyQueue;
    assert queue[0..] == queue;
    forall j | 0 <= j < |queue| ensures Answers(ops, at[j], log[j], queue[j]) {
      InPlaceBy(ops[..at[j]], log[j]);
    }
  }

  /** The early exit is taken: one malformed subscription, then one publication. */
  method LeavesEarly() returns (exited: bool)
    ensures exited
  {
    hide ParsedPrefix, Indexed;
    var b := new Broker();
    MalformedOpensIndex();
    var _ := b.AddNewClient("c", "", ["a", "b:x"], NAME, "");
    exited := b.PubSubPublish(["a"], "");
    assert !(Lookup(b.getIndexMap, ["a"][0]) <= {});
  }

  // ---------- One client's share of the queue ----------

  /** How many entries of the queue are for the client. */
  function EntriesFor(queue: seq<NotifyInfo>, c: Client): nat {
    if queue == [] then 0
    else
      var n := |queue| - 1;
      EntriesFor(queue[..n], c) + if queue[n].clientid == c then 1 else 0
  }

  /** When all of a client's entries are for one subscription, they can be counted by it. */
  lemma {:induction false} EntriesForOne(queue: seq<NotifyInfo>, log: seq<Key>, c: Client, e: Event)
    requires |queue| == |log| && forall j :: 0 <= j < |log| ==> queue[j].clientid == log[j].1
    requires forall key: Key :: key in log && key.1 == c ==> key.0 == e
    ensures EntriesFor(queue, c) == multiset(log)[(e, c)]
  {
    if log != [] {
      var n := |log| - 1;
      assert log == log[..n] + [log[n]];
      EntriesForOne(queue[..n], log[..n], c, e);
      assert log[n] in log;
      assert log[n].1 == c <==> log[n] == (e, c);
    }
  }

  ghost predicate NeverSubscribes(ops: seq<Op>, c: Client) {
    forall j :: 0 <= j < |ops| ==> !(ops[j].Subscribe? && ops[j].client == c)
  }

  /** The client has no subscription in place but perhaps the one filed under `e`. */
  ghost predicate OnlyAt(k: Core, c: Client, e: Event) {
    forall i :: InPlace(k, (i, c)) ==> i == e
  }

  lemma {:induction false} OnlyEntry(k: Core, ops: seq<Op>, c: Client, e: Event, log: seq<Key>)
    requires OnlyAt(k, c, e) && NeverSubscribes(ops, c) && Tallied(k, log, ops)
    ensures forall key: Key :: key in log && key.1 == c ==> key.0 == e
  {
    hide Times, Run;
    forall key: Key | key in log && key.1 == c ensures key.0 == e {
      assert multiset(log)[key] > 0;
      if key.0 != e {
        AbsentRun(k, ops, key);
      }
    }
  }

  /** From the subscription string to the queue: when a client subscribes to "e:n" and has no other
      subscription in place, the further run adds floor(k/n) entries for it by the k publications
      of e that reach it, whatever came before and whatever else is interleaved; with harmless
      subscriptions only, by all k publications of e. */
  method QueuedEveryNth(before: seq<Op>, c: Client, addr: string, e: Event, n: nat, meta: string, after: seq<Op>)
    returns (added: seq<NotifyInfo>)
    requires e != "" && ':' !in e && 1 <= n < 0x8000_0000
    requires AllByName(before) && AllByName(after)
    requires OnlyAt(Run(EMPTY, before), c, e) && NeverSubscribes(after, c) && AllKeep(after, (e, c))
    ensures var k := Next(Run(EMPTY, before), Subscribe(c, addr, [e + ":" + Show(n)], NAME, meta));
            && EntriesFor(added, c) == Heard(k, after, (e, c), e) / n
            && (forall j :: 0 <= j < |added| && added[j].clientid == c ==> added[j].addr == addr)
            && (IndexClosed(Run(EMPTY, before)) && HarmlessRun(k, after) ==> EntriesFor(added, c) == Pubs(after, e) / n)
  {
    hide Tallied, NeverSubscribes, OnlyAt, Times, Next, Run, InPlace, Of, Heard, Named, HarmlessRun, IndexClosed, Output,
         FlagsDown, Accounts, Sends;
    var b := new Broker();
    NamedNothing();
    ghost var _, _ := RunFrom(b, before);
    var op := Subscribe(c, addr, [e + ":" + Show(n)], NAME, meta);
    ghost var k0 := b.Abs();
    ghost var _ := Execute(b, op);
    ghost var k := b.Abs();
    var start := |b.notifyQueue|;
    ghost var log, at := RunFrom(b, after);
    added := b.notifyQueue[start..];
    ClientsOf(k, after, added, log, at);
    Invariants(before);
    SubscribedAlone(k0, op, e, n);
    OnlyEntry(k, after, c, e, log);
    EntriesForOne(added, log, c, e);
    TalliedAt(k, log, after, (e, c));
    NotifiedEveryNth(k, after, (e, c), e, n);
    AllToAddress(k, after, added, log, at, (e, c), addr);
    if IndexClosed(k0) && HarmlessRun(k, after) {
      HarmlessHeard(k, after, (e, c), e);
    }
  }

  lemma {:induction false} ClientsOf(k: Core, ops: seq<Op>, entries: seq<NotifyInfo>, log: seq<Key>, at: seq<nat>)
    requires Accounts(k, ops, entries, log, at)
    ensures |entries| == |log| && forall j :: 0 <= j < |log| ==> entries[j].clientid == log[j].1
  {
  }

  /** A subscription that stays in place keeps its address. */
  lemma {:induction false} AddressKept(k: Core, ops: seq<Op>, key: Key)
    requires InPlace(k, key) && AllKeep(ops, key)
    ensures InPlace(Run(k, ops), key) && Of(Run(k, ops), key).peerURL == Of(k, key).peerURL
  {
    hide Next;
    if ops != [] {
      var n := |ops| - 1;
      AddressKept(k, ops[..n], key);
      OwnerStep(Run(k, ops[..n]), ops[n], key);
    }
  }

  lemma {:induction false} AllToAddress(k: Core, ops: seq<Op>, entries: seq<NotifyInfo>, log: seq<Key>, at: seq<nat>,
                                        key: Key, addr: string)
    requires Accounts(k, ops, entries, log, at) && InPlace(k, key) && Of(k, key).peerURL == addr && AllKeep(ops, key)
    requires forall x: Key :: x in log && x.1 == key.1 ==> x.0 == key.0
    ensures forall j :: 0 <= j < |entries| && entries[j].clientid == key.1 ==> entries[j].addr == addr
  {
    hide Run, InPlace, Keeps, Of;
    forall j | 0 <= j < |entries| && entries[j].clientid == key.1 ensures entries[j].addr == addr {
      assert log[j] in log;
      AddressKept(k, ops[..at[j]], key);
    }
  }

  lemma {:induction false} NamedNothing()
    ensures Named(EMPTY.subs) && FlagsDown(EMPTY)
  {
  }

  lemma {:induction false} Invariants(ops: seq<Op>)
    requires AllByName(ops)
    ensures Inv(Run(EMPTY, ops))
  {
    EmptyStart();
    RunKeepsInv(EMPTY, ops);
  }

  /** What holds right after a client's only subscription, to "e:n". */
  lemma {:induction false} SubscribedAlone(k: Core, op: Op, e: Event, n: nat)
    requires Inv(k) && e != "" && ':' !in e && n < 0x8000_0000
    requires op.Subscribe? && op.events == [e + ":" + Show(n)] && op.matchType == NAME && OnlyAt(k, op.client, e)
    ensures var k', key := Next(k, op), (e, op.client);
            && Inv(k') && OnlyAt(k', op.client, e) && InPlace(k', key)
            && Of(k', key).required == map[e := {n}] && Of(k', key).published == map[] && Of(k', key).peerURL == op.addr
            && e in k'.index && e in k'.index[e]
            && (IndexClosed(k) ==> IndexClosed(k'))
  {
    hide ParsedPrefix, RequiredOf, Satisfied;
    SubscribeToNth(k, op.client, op.addr, e, n, op.meta);
    NextKeepsInv(k, op);
    var k' := Next(k, op);
    assert e in Lookup(k'.index, e) by { FiledAt(k', (e, op.client), e); }
    if IndexClosed(k) {
      NextIndexClosed(k, op);
    }
  }

  lemma {:induction false} TalliedAt(k: Core, log: seq<Key>, ops: seq<Op>, key: Key)
    requires Tallied(k, log, ops)
    ensures multiset(log)[key] == Times(k, ops, key)
  {
  }

  // ---------- Lists of events ----------

  function Occurrences(events: seq<Event>, e: Event): nat {
    if events == [] then 0 else Occurrences(events[..|events| - 1], e) + if events[|events| - 1] == e then 1 else 0
  }

  /** A list that does not leave early adds to every counter of every subscription the number of
      times the event is listed, if the event leads to the subscription, and changes nothing else
      but flags and metadata. */
  lemma {:induction false} ListCounts(k: Core, events: seq<Event>, meta: string, key: Key, e: Event)
    requires !Stops(k, events) && InPlace(k, key)
    ensures var subs := CountedList(k, events, meta);
            && subs.Keys == k.subs.Keys && key.1 in subs[key.0] && SameOwner(Of(k, key), subs[key.0][key.1])
            && Tally(subs[key.0][key.1], e)
            == Tally(Of(k, key), e) + if key.0 in Lookup(k.index, e) then Occurrences(events, e) else 0
  {
    if events != [] {
      var n := |events| - 1;
      assert forall j :: 0 <= j < n ==> events[..n][j] == events[j];
      assert !Stops(k, events[..n]);
      ListCounts(k, events[..n], meta, key, e);
      ReachedAll(k.subs.Keys, Lookup(k.index, events[n]));
      hide Satisfied, Reached, Stops;
    }
  }
}
