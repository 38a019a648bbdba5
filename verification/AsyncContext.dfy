/**
 The callback state machine of the asynchronous client: a linked FIFO of callbacks, context
 flags, and callbacks that issue commands, disconnect or free while they run. Restricted to
 regular commands (no SUBSCRIBE, no MONITOR) on a connected context.
 */
module AsyncContext {
  import opened Common

  /** A registered callback; `fn` says whether it has a function to call. */
  datatype Callback = Callback(id: nat, fn: bool)

  datatype Reply = ErrorReply(text: string) | OtherReply(text: string)

  // ---------- The linked callback list ----------

  class Node {
    const cb: Callback
    var next: Node?

    constructor (cb: Callback)
      ensures this.cb == cb && next == null
    {
      this.cb, next := cb, null;
    }
  }

  class CallbackList {
    var head: Node?
    var tail: Node?
    ghost var spine: seq<Node>
    ghost var repr: set<Node>

    /** The nodes from head to tail, without sharing. */
    ghost predicate Valid()
      reads this, repr
    {
      && (head == null <==> spine == []) && (tail == null <==> spine == [])
      && (spine != [] ==> head == spine[0] && tail == spine[|spine| - 1])
      && (forall i :: 0 <= i < |spine| ==> spine[i] in repr)
      && (forall i, j :: 0 <= i < j < |spine| ==> spine[i] != spine[j])
      && forall i :: 0 <= i < |spine| ==> Linked(i)
    }

    ghost predicate Linked(i: nat)
      requires i < |spine| && spine[i] in repr
      reads this, repr
    {
      spine[i].next == if i + 1 < |spine| then spine[i + 1] else null
    }

    ghost function Contents(): (s: seq<Callback>)
      reads this
    {
      Callbacks(spine)
    }

    lemma {:induction false} Emptiness()
      requires Valid()
      ensures head == null <==> Contents() == []
    {
    }

    constructor ()
      ensures Valid() && Contents() == [] && repr == {}
    {
      head, tail, spine, repr := null, null, [], {};
    }

    /** __redisPushCallback */
    method Push(cb: Callback)
      requires Valid()
      modifies this, repr
      ensures Valid() && Contents() == old(Contents()) + [cb] && fresh(repr - old(repr))
    {
      var node := new Node(cb);
      if head == null {
        head := node;
      }
      ghost var all := spine;
      if tail != null {
        tail.next := node;
      }
      tail := node;
      spine, repr := spine + [node], repr + {node};
      forall i | 0 <= i < |spine| ensures Linked(i) {
        assert i < |all| - 1 ==> old(Linked(i)) && spine[i] != all[|all| - 1];
      }
      assert Callbacks(spine) == Callbacks(all) + [cb];
    }

    /** __redisShiftCallback */
    method Shift() returns (cb: Option<Callback>)
      requires Valid()
      modifies this
      ensures Valid() && repr == old(repr)
      ensures old(Contents()) == [] ==> cb == None && Contents() == []
      ensures old(Contents()) != [] ==> cb == Some(old(Contents())[0]) && Contents() == old(Contents())[1..]
    {
      if head == null {
        return None;
      }
      var node := head;
      ghost var all := spine;
      assert Linked(0);
      head := node.next;
      if node == tail {
        tail := null;
      }
      spine := spine[1..];
      forall i | 0 <= i < |spine| ensures Linked(i) {
        assert spine[i] == all[i + 1];
        assert old(Linked(i + 1));
      }
      assert Callbacks(spine) == Callbacks(all)[1..];
      cb := Some(node.cb);
    }
  }

  ghost function Callbacks(nodes: seq<Node>): (s: seq<Callback>)
    ensures |s| == |nodes|
  {
    seq(|nodes|, i requires 0 <= i < |nodes| => nodes[i].cb)
  }

  // ---------- The context ----------

  /** What a callback may do while it runs. */
  datatype Action = Command(fn: bool, len: nat) | Disconnect | Free

  /** A callback taken from the list, with the reply it was given (None is NULL). */
  datatype Consumed = Consumed(cb: Callback, reply: Option<Reply>)

  /** The consumed callbacks are the first accepted ones, in order: the first replies went to
      them one by one, and the others got NULL. */
  ghost predicate InOrder(accepted: seq<Callback>, log: seq<Consumed>, answers: seq<Reply>) {
    && |answers| <= |log| <= |accepted|
    && (forall i :: 0 <= i < |log| ==>
          log[i] == Consumed(accepted[i], if i < |answers| then Some(answers[i]) else None))
    && forall i :: 0 <= i < |accepted| ==> accepted[i].id == i
  }

  /** One more callback is taken. */
  lemma {:induction false} Logged(accepted: seq<Callback>, log: seq<Consumed>, answers: seq<Reply>, reply: Option<Reply>)
    requires InOrder(accepted, log, answers) && |log| < |accepted|
    requires reply.Some? ==> |answers| == |log|
    ensures InOrder(accepted, log + [Consumed(accepted[|log|], reply)],
                    answers + if reply.Some? then [reply.value] else [])
  {
  }

  // ---------- What is asked of a context ----------

  /** A request, by the user or by a callback: a command, or to tear down. */
  datatype Request = Ask(fn: bool, len: nat) | Stop

  function RequestsOf(actions: seq<Action>): (rs: seq<Request>)
    ensures |rs| == |actions|
  {
    seq(|actions|, i requires 0 <= i < |actions| =>
      match actions[i] case Command(fn, len) => Ask(fn, len) case Disconnect => Stop case Free => Stop)
  }

  /** The commands asked before the first request to tear down. */
  function Granted(rs: seq<Request>): seq<Request> {
    if rs == [] || rs[0].Stop? then [] else [rs[0]] + Granted(rs[1..])
  }

  predicate Torn(rs: seq<Request>) {
    exists i :: 0 <= i < |rs| && rs[i].Stop?
  }

  /** Without a request to tear down everything is granted; after one, nothing more. */
  lemma {:induction false} GrantedMore(rs: seq<Request>, more: seq<Request>)
    ensures Torn(rs + more) <==> Torn(rs) || Torn(more)
    ensures !Torn(rs) ==> Granted(rs) == rs && Granted(rs + more) == rs + Granted(more)
    ensures Torn(rs) ==> Granted(rs + more) == Granted(rs)
  {
    TornParts(rs, more);
    if rs == [] {
      assert rs + more == more;
    } else {
      assert (rs + more)[1..] == rs[1..] + more;
      assert rs == [rs[0]] + rs[1..];
      TornParts([rs[0]], rs[1..]);
      if rs[0].Ask? {
        GrantedMore(rs[1..], more);
        assert [rs[0]] + (rs[1..] + Granted(more)) == rs + Granted(more);
      }
    }
  }

  lemma {:induction false} TornParts(a: seq<Request>, b: seq<Request>)
    ensures Torn(a + b) <==> Torn(a) || Torn(b)
  {
    if i :| 0 <= i < |a| && a[i].Stop? {
      assert (a + b)[i].Stop?;
    }
    if i :| 0 <= i < |b| && b[i].Stop? {
      assert (a + b)[|a| + i].Stop?;
    }
  }

  /** Exactly the commands asked before teardown are accepted, and their bytes are in the output
      buffer or sent. */
  ghost predicate Fair(accepted: seq<Callback>, requests: seq<Request>, closing: bool, bytes: nat) {
    && accepted == Numbered(Granted(requests)) && (closing <==> Torn(requests))
    && bytes == BytesOf(Granted(requests))
  }

  /** One more request, as the context answers it. */
  lemma {:induction false} Asked(accepted: seq<Callback>, requests: seq<Request>, closing: bool, bytes: nat, r: Request)
    requires Fair(accepted, requests, closing, bytes)
    ensures closing || r.Stop? ==> Fair(accepted, requests + [r], true, bytes)
    ensures !closing && r.Ask? ==>
      Fair(accepted + [Callback(|accepted|, r.fn)], requests + [r], false, bytes + r.len)
  {
    GrantedMore(requests, [r]);
    assert Torn([r]) <==> r.Stop? by {
      if r.Stop? {
        assert [r][0].Stop?;
      }
    }
    assert Granted([r]) == if r.Stop? then [] else [r];
    if !closing {
      assert requests + [] == requests;
      var rs := requests + [r];
      assert rs[..|requests|] == requests;
    }
  }

  /** The callbacks of granted commands. */
  function Numbered(rs: seq<Request>): (cbs: seq<Callback>)
    ensures |cbs| == |rs|
  {
    seq(|rs|, i requires 0 <= i < |rs| => Callback(i, rs[i].Ask? && rs[i].fn))
  }

  function BytesOf(rs: seq<Request>): nat {
    if rs == [] then 0
    else BytesOf(rs[..|rs| - 1]) + if rs[|rs| - 1].Ask? then rs[|rs| - 1].len else 0
  }

  /** How many of the consumed callbacks had a function to run. */
  function Fns(consumed: seq<Consumed>): nat {
    if consumed == [] then 0
    else Fns(consumed[..|consumed| - 1]) + if consumed[|consumed| - 1].cb.fn then 1 else 0
  }

  /** What the consumed callbacks ask for, when `x` functions have run before. */
  function Performed(behave: nat -> seq<Action>, consumed: seq<Consumed>, x: nat): seq<Request> {
    if consumed == [] then []
    else
      var n := |consumed| - 1;
      Performed(behave, consumed[..n], x) + ByOne(behave, consumed[n].cb, x + Fns(consumed[..n]))
  }

  function ByOne(behave: nat -> seq<Action>, cb: Callback, x: nat): seq<Request> {
    if cb.fn then RequestsOf(behave(x)) else []
  }

  lemma {:induction false} PerformedSnoc(behave: nat -> seq<Action>, s: seq<Consumed>, c: Consumed, x: nat)
    ensures Fns(s + [c]) == Fns(s) + if c.cb.fn then 1 else 0
    ensures Performed(behave, s + [c], x) == Performed(behave, s, x) + ByOne(behave, c.cb, x + Fns(s))
  {
    hide ByOne;
    assert (s + [c])[..|s|] == s;
  }

  lemma {:induction false} Regroup<T>(a: seq<T>, b: seq<T>, c: seq<T>)
    ensures a + b + c == a + (b + c)
  {
  }

  lemma {:induction false} FnsMore(a: seq<Consumed>, b: seq<Consumed>)
    ensures Fns(a + b) == Fns(a) + Fns(b)
  {
    if b == [] {
      assert a + b == a;
    } else {
      var n := |b| - 1;
      FnsMore(a, b[..n]);
      assert (a + b)[..|a| + n] == a + b[..n];
    }
  }

  lemma {:induction false} PerformedMore(behave: nat -> seq<Action>, a: seq<Consumed>, b: seq<Consumed>, x: nat)
    ensures Fns(a + b) == Fns(a) + Fns(b)
    ensures Performed(behave, a + b, x) == Performed(behave, a, x) + Performed(behave, b, x + Fns(a))
    decreases |b|, 1
  {
    FnsMore(a, b);
    if b == [] {
      assert a + b == a;
    } else {
      PerformedStep(behave, a, b[..|b| - 1], b[|b| - 1], x);
      assert b == b[..|b| - 1] + [b[|b| - 1]];
    }
  }

  lemma {:induction false} PerformedStep(behave: nat -> seq<Action>, a: seq<Consumed>, b: seq<Consumed>, c: Consumed, x: nat)
    ensures Performed(behave, a + (b + [c]), x) == Performed(behave, a, x) + Performed(behave, b + [c], x + Fns(a))
    decreases |b| + 1, 0
  {
    hide ByOne, Performed, Fns;
    PerformedMore(behave, a, b, x);
    PerformedSnoc(behave, a + b, c, x);
    PerformedSnoc(behave, b, c, x + Fns(a));
    Regroup(a, b, [c]);
    Regroup(Performed(behave, a, x), Performed(behave, b, x + Fns(a)), ByOne(behave, c.cb, x + Fns(a) + Fns(b)));
  }

  lemma {:induction false} NothingPerformed(behave: nat -> seq<Action>, x: nat)
    ensures Performed(behave, [], x) == [] && Fns([]) == 0
  {
  }

  /** One callback more, or none. */
  lemma {:induction false} TakenOne(behave: nat -> seq<Action>, n: nat, before: seq<Consumed>, after: seq<Consumed>,
                                    cb: Option<Callback>, reply: Option<Reply>, x: nat)
    requires n <= |before| && after == before + if cb.Some? then [Consumed(cb.value, reply)] else []
    ensures Fns(after[n..]) == Fns(before[n..]) + if cb.Some? && cb.value.fn then 1 else 0
    ensures Performed(behave, after[n..], x)
         == Performed(behave, before[n..], x) + if cb.Some? then ByOne(behave, cb.value, x + Fns(before[n..])) else []
  {
    if cb.Some? {
      hide ByOne;
      var c := Consumed(cb.value, reply);
      assert after[n..] == before[n..] + [c];
      PerformedMore(behave, before[n..], [c], x);
      PerformedOne(behave, c, x + Fns(before[n..]));
    } else {
      assert after == before;
    }
  }

  lemma {:induction false} PerformedOne(behave: nat -> seq<Action>, c: Consumed, x: nat)
    ensures Fns([c]) == (if c.cb.fn then 1 else 0) && Performed(behave, [c], x) == ByOne(behave, c.cb, x)
  {
    assert [c][..0] == [];
  }

  /** A reply that is no error arrived when no callback was pending. */
  ghost predicate Spontaneous(accepted: seq<Callback>, answers: seq<Reply>, arrived: seq<Reply>) {
    |accepted| == |answers| < |arrived| && arrived[|answers|].OtherReply?
  }

  class Context {
    var err: bool
    var disconnecting: bool
    var freeing: bool
    var inCallback: bool
    var obuf: nat
    const replies: CallbackList
    /** redisFree has run; an assert has failed. */
    var freed: bool
    var aborted: bool

    /** What the n-th callback execution does. */
    const behave: nat -> seq<Action>
    var executed: nat

    var accepted: seq<Callback>
    var log: seq<Consumed>
    ghost var answers: seq<Reply>
    /** Everything asked so far, in order, and the bytes sent. */
    ghost var requests: seq<Request>
    ghost var written: nat

    /** Teardown has begun: no command is accepted any more. */
    predicate Closing()
      reads this
    {
      disconnecting || freeing
    }

    ghost predicate Valid()
      reads this, replies, replies.repr
    {
      && replies.Valid()
      && InOrder(accepted, log, answers)
      && replies.Contents() == accepted[|log|..]
      && (|answers| < |log| ==> Closing())
      && (freed ==> replies.Contents() == [])
      && Fair(accepted, requests, Closing(), obuf + written)
    }

    constructor (behave: nat -> seq<Action>)
      ensures Valid() && fresh(replies) && this.behave == behave
      ensures !freed && !aborted && !inCallback && !freeing && accepted == [] && log == [] && answers == []
      ensures requests == [] && executed == 0 && !err
      ensures replies.repr == {}
    {
      this.behave := behave;
      replies := new CallbackList();
      err, disconnecting, freeing, inCallback, obuf := false, false, false, false, 0;
      freed, aborted, executed := false, false, 0;
      accepted, log, answers := [], [], [];
      requests, written := [], 0;
    }

    /** __redisAsyncCommand for a regular command of `len` bytes. */
    method AsyncCommand(fn: bool, len: nat) returns (ok: bool)
      requires Valid() && !freed
      modifies this`accepted, this`obuf, this`requests, replies, replies.repr
      ensures Valid() && fresh(replies.repr - old(replies.repr))
      ensures ok == !Closing()
      ensures accepted == if ok then old(accepted) + [Callback(|old(accepted)|, fn)] else old(accepted)
      ensures obuf == if ok then old(obuf) + len else old(obuf)
      ensures requests == old(requests) + [Ask(fn, len)]
    {
      hide CallbackList.Valid, CallbackList.Contents, Fair;
      Asked(accepted, requests, Closing(), obuf + written, Ask(fn, len));
      requests := requests + [Ask(fn, len)];
      if disconnecting || freeing {
        return false;
      }
      var cb := Callback(|accepted|, fn);
      replies.Push(cb);
      accepted := accepted + [cb];
      obuf := obuf + len;
      return true;
    }

    /** __redisRunCallback: the function runs with the in-callback flag up, so that its own
        disconnects and frees only raise their flags. */
    method RunCallback(cb: Callback)
      requires Valid() && !freed && !inCallback
      modifies this, replies, replies.repr
      ensures Valid() && fresh(replies.repr - old(replies.repr)) && !inCallback && !freed
      ensures log == old(log) && answers == old(answers) && aborted == old(aborted) && err == old(err)
      ensures old(accepted) <= accepted && (old(disconnecting) ==> disconnecting) && (old(freeing) ==> freeing)
      ensures old(Closing()) ==> accepted == old(accepted)
      ensures !cb.fn ==> freeing == old(freeing)
      ensures requests == old(requests) + ByOne(behave, cb, old(executed))
      ensures executed == old(executed) + (if cb.fn then 1 else 0) && written == old(written)
      decreases 1
    {
      hide CallbackList.Valid, CallbackList.Contents, InOrder, Fair;
      if cb.fn {
        inCallback := true;
        var actions := behave(executed);
        executed := executed + 1;
        ghost var asked := RequestsOf(actions);
        assert requests + asked[..0] == requests;
        for j := 0 to |actions|
          invariant requests == old(requests) + asked[..j] && executed == old(executed) + 1 && written == old(written)
          invariant Valid() && fresh(replies.repr - old(replies.repr)) && inCallback && !freed
          invariant log == old(log) && answers == old(answers) && aborted == old(aborted) && err == old(err)
          invariant old(accepted) <= accepted && (old(disconnecting) ==> disconnecting) && (old(freeing) ==> freeing)
          invariant old(Closing()) ==> accepted == old(accepted)
        {
          assert asked[..j + 1] == asked[..j] + [asked[j]];
          match actions[j]
          case Command(fn, len) =>
            var _ := AsyncCommand(fn, len);
          case Disconnect =>
            AsyncDisconnect();
          case Free =>
            AsyncFree();
        }
        assert asked[..|actions|] == asked;
        inCallback := false;
      }
    }

    /** Shift the next callback and run it with `reply`. NULL is given only in teardown. */
    method TakeNext(reply: Option<Reply>) returns (cb: Option<Callback>)
      requires Valid() && !freed && !inCallback
      requires reply.Some? ==> |answers| == |log|
      requires reply.None? ==> Closing() || replies.head == null
      modifies this, replies, replies.repr
      ensures Valid() && fresh(replies.repr - old(replies.repr)) && !inCallback && !freed
      ensures aborted == old(aborted) && err == old(err)
      ensures old(accepted) <= accepted && (old(disconnecting) ==> disconnecting) && (old(freeing) ==> freeing)
      ensures old(Closing()) ==> accepted == old(accepted)
      ensures cb.None? <==> old(replies.Contents()) == []
      ensures cb.None? ==> log == old(log) && answers == old(answers) && accepted == old(accepted)
      ensures cb.None? ==> replies.head == null
      ensures cb.None? || !cb.value.fn ==> freeing == old(freeing)
      ensures cb.Some? ==> log == old(log) + [Consumed(cb.value, reply)]
      ensures requests == old(requests) + if cb.Some? then ByOne(behave, cb.value, old(executed)) else []
      ensures executed == old(executed) + (if cb.Some? && cb.value.fn then 1 else 0) && written == old(written)
      ensures cb.Some? ==> answers == old(answers) + if reply.Some? then [reply.value] else []
      decreases 2
    {
      hide CallbackList.Valid, CallbackList.Contents, ByOne;
      replies.Emptiness();
      cb := replies.Shift();
      replies.Emptiness();
      if cb.Some? {
        assert accepted[|log|..][1..] == accepted[|log| + 1..];
        Logged(accepted, log, answers, reply);
        assert cb.value == accepted[|log|];
        log := log + [Consumed(cb.value, reply)];
        if reply.Some? {
          answers := answers + [reply.value];
        }
        RunCallback(cb.value);
      }
    }

    /** __redisAsyncFree: the pending callbacks run with NULL, in order; then the context is gone. */
    method FreeNow()
      requires Valid() && !freed && !inCallback
      requires Closing() || replies.head == null
      modifies this, replies, replies.repr
      ensures Valid() && fresh(replies.repr - old(replies.repr))
      ensures freed && !inCallback && aborted == old(aborted) && answers == old(answers) && accepted == old(accepted)
      ensures |log| == |accepted| && old(log) <= log
      ensures requests == old(requests) + Performed(behave, log[|old(log)|..], old(executed))
      ensures executed == old(executed) + Fns(log[|old(log)|..])
      decreases 3
    {
      hide CallbackList.Valid, CallbackList.Contents, Fair, Performed, Fns, ByOne;
      ghost var n := |log|;
      assert log[n..] == [];
      replies.Emptiness();
      NothingPerformed(behave, executed);
      ghost var log0 := log;
      var cb := TakeNext(None);
      TakenOne(behave, n, log0, log, cb, None, old(executed));
      while cb.Some?
        invariant Valid() && fresh(replies.repr - old(replies.repr)) && !inCallback && !freed
        invariant cb.Some? ==> Closing()
        invariant cb.None? ==> replies.Contents() == []
        invariant accepted == old(accepted) && answers == old(answers) && aborted == old(aborted)
        invariant old(log) <= log && executed == old(executed) + Fns(log[n..])
        invariant requests == old(requests) + Performed(behave, log[n..], old(executed))
        decreases |accepted| - |log|, cb.Some?
      {
        log0 := log;
        cb := TakeNext(None);
        TakenOne(behave, n, log0, log, cb, None, old(executed));
      }
      assert accepted[|log|..] == [];
      freed := true;
    }

    /** __redisAsyncDisconnect; its assert is that a clean disconnect has no pending callbacks. */
    method DisconnectNow()
      requires Valid() && !freed && !inCallback
      requires err || replies.head == null
      modifies this, replies, replies.repr
      ensures Valid() && fresh(replies.repr - old(replies.repr))
      ensures freed && !inCallback && aborted == old(aborted) && answers == old(answers) && accepted == old(accepted)
      ensures |log| == |accepted| && old(log) <= log
      ensures requests
           == old(requests) + (if old(err) then [Stop] else []) + Performed(behave, log[|old(log)|..], old(executed))
      ensures executed == old(executed) + Fns(log[|old(log)|..])
      decreases 4
    {
      hide CallbackList.Valid, CallbackList.Contents, InOrder, Fair, Performed, Fns;
      if !err {
        replies.Emptiness();
        assert requests + [] == requests;
      } else {
        Asked(accepted, requests, Closing(), obuf + written, Stop);
        requests := requests + [Stop];
        disconnecting := true;
      }
      FreeNow();
    }

    /** redisAsyncFree: immediate outside callbacks, only a flag inside them. */
    method AsyncFree()
      requires Valid() && !freed
      modifies this, replies, replies.repr
      ensures Valid() && fresh(replies.repr - old(replies.repr)) && inCallback == old(inCallback)
      ensures freed == !inCallback && (freed || freeing)
      ensures aborted == old(aborted) && answers == old(answers) && accepted == old(accepted) && old(log) <= log
      ensures !freed ==> log == old(log) && err == old(err) && disconnecting == old(disconnecting)
      ensures !freed ==> executed == old(executed) && written == old(written) && requests == old(requests) + [Stop]
      ensures freed ==>
        && requests == old(requests) + [Stop] + Performed(behave, log[|old(log)|..], old(executed))
        && executed == old(executed) + Fns(log[|old(log)|..])
      decreases if inCallback then 0 else 5
    {
      hide CallbackList.Valid, CallbackList.Contents, InOrder, Fair, Performed, Fns;
      Asked(accepted, requests, Closing(), obuf + written, Stop);
      requests := requests + [Stop];
      freeing := true;
      if !inCallback {
        FreeNow();
      }
    }

    /** redisAsyncDisconnect: immediate outside callbacks when nothing is pending, else a flag. */
    method AsyncDisconnect()
      requires Valid() && !freed
      modifies this, replies, replies.repr
      ensures Valid() && fresh(replies.repr - old(replies.repr)) && inCallback == old(inCallback)
      ensures freed == (!inCallback && old(replies.head) == null) && (freed || disconnecting)
      ensures aborted == old(aborted) && answers == old(answers) && accepted == old(accepted) && old(log) <= log
      ensures !freed ==> log == old(log) && err == old(err) && freeing == old(freeing)
      ensures !freed ==> executed == old(executed) && written == old(written) && requests == old(requests) + [Stop]
      ensures freed ==> log == old(log) && executed == old(executed)
      ensures freed ==> requests == old(requests) + [Stop] + if old(err) then [Stop] else []
      decreases if inCallback then 0 else 5
    {
      hide CallbackList.Valid, CallbackList.Contents, Fair, Performed, Fns;
      Asked(accepted, requests, Closing(), obuf + written, Stop);
      requests := requests + [Stop];
      disconnecting := true;
      if !inCallback && replies.head == null {
        NothingPerformed(behave, executed);
        replies.Emptiness();
        DisconnectNow();
        assert log[|old(log)|..] == [];
      }
    }

    /** One reply of redisProcessCallbacks; `going` says whether it asks for the next one, `failed`
        whether it is an error reply nobody asked for. */
    method Dispatch(reply: Reply) returns (going: bool, ghost failed: bool)
      requires Valid() && !freed && !aborted && !inCallback && !freeing && !err
      requires |answers| == |log|
      modifies this, replies, replies.repr
      ensures Valid() && fresh(replies.repr - old(replies.repr)) && !inCallback
      ensures old(accepted) <= accepted && going == (!freed && !aborted)
      ensures !freed ==> !freeing && !err && |answers| == |log|
      ensures old(answers) <= answers <= old(answers) + [reply] && (going ==> |answers| == |old(answers)| + 1)
      ensures aborted ==> answers == old(answers) && |accepted| == |answers| && reply.OtherReply?
      ensures old(Closing()) ==> accepted == old(accepted) && (going ==> Closing())
      ensures old(log) <= log && executed == old(executed) + Fns(log[|old(log)|..])
      ensures failed ==> reply.ErrorReply? && log == old(log) && !going
      ensures requests == old(requests) + if failed then [Stop] else Performed(behave, log[|old(log)|..], old(executed))
    {
      hide CallbackList.Valid, CallbackList.Contents, Fair, Performed, Fns, ByOne;
      ghost var n, log0 := |log|, log;
      NothingPerformed(behave, executed);
      assert log[n..] == [];
      failed := false;
      var cb := TakeNext(Some(reply));
      TakenOne(behave, n, log0, log, cb, Some(reply), old(executed));
      assert requests == old(requests) + Performed(behave, log[n..], old(executed));
      ghost var log1 := log;
      if cb.None? {
        assert log[n..] == [];
        if reply.ErrorReply? {
          err, failed := true, true;
          DisconnectNow();
          assert log[n..] == [];
        } else {
          aborted := true;
        }
      } else if cb.value.fn && freeing {
        FreeNow();
        PerformedMore(behave, log1[n..], log[|log1|..], old(executed));
        assert log[n..] == log1[n..] + log[|log1|..];
      }
      going := !freed && !aborted;
    }

    /** redisProcessCallbacks on the replies the reader holds; `broken` is a reader error after them.
        `q` callbacks are consumed before the failure, if there is one. */
    method ProcessCallbacks(incoming: seq<Reply>, broken: bool) returns (ghost q: nat, ghost failed: bool)
      requires Valid() && !freed && !aborted && !inCallback && !freeing && !err
      requires |answers| == |log|
      modifies this, replies, replies.repr
      ensures Valid() && fresh(replies.repr - old(replies.repr)) && !inCallback
      ensures old(accepted) <= accepted
      ensures old(answers) <= answers <= old(answers) + incoming
      ensures !freed ==> |answers| == |log| && !err
      ensures !freed && !aborted ==> answers == old(answers) + incoming
      ensures aborted ==> Spontaneous(accepted, answers, old(answers) + incoming)
      ensures broken ==> freed || aborted
      ensures !freed ==> !freeing
      ensures !freed && !aborted ==> !(disconnecting && obuf == 0 && replies.Contents() == [])
      ensures old(Closing()) ==> accepted == old(accepted)
      ensures old(log) <= log && executed == old(executed) + Fns(log[|old(log)|..])
      ensures q <= |log| - |old(log)| && (failed ==> broken || exists i :: 0 <= i < |incoming| && incoming[i].ErrorReply?)
      ensures requests == old(requests) + Answered(behave, log[|old(log)|..], old(executed), q, failed)
    {
      hide CallbackList.Valid, CallbackList.Contents, InOrder, Fair, Performed, Fns;
      ghost var n := |log|;
      NothingPerformed(behave, executed);
      assert log[n..] == [];
      for j := 0 to |incoming|
        invariant Valid() && fresh(replies.repr - old(replies.repr)) && !inCallback && !freed && !aborted && !freeing
        invariant old(accepted) <= accepted && !err
        invariant answers == old(answers) + incoming[..j] && |answers| == |log|
        invariant old(Closing()) ==> Closing() && accepted == old(accepted)
        invariant old(log) <= log && executed == old(executed) + Fns(log[n..])
        invariant requests == old(requests) + Performed(behave, log[n..], old(executed))
      {
        assert incoming[..j + 1] == incoming[..j] + [incoming[j]];
        ghost var log0 := log;
        var going;
        going, failed := Dispatch(incoming[j]);
        assert log[n..] == log0[n..] + log[|log0|..];
        PerformedMore(behave, log0[n..], log[|log0|..], old(executed));
        if !going {
          q := |log| - n;
          AnsweredAll(behave, log[n..], old(executed), failed);
          if failed {
            assert log[|log0|..] == [];
          }
          return;
        }
      }
      ghost var log0, requests0 := log, requests;
      failed, q := broken, |log| - n;
      NoMoreReplies(broken);
      assert log[n..] == log0[n..] + log[|log0|..];
      AnsweredParts(behave, log0[n..], log[|log0|..], old(executed), failed, old(requests));
      PerformedMore(behave, log0[n..], log[|log0|..], old(executed));
    }

    /** The end of redisProcessCallbacks: the reader has failed, or has no more replies and a clean
        disconnect may be due. */
    method NoMoreReplies(broken: bool)
      requires Valid() && !freed && !aborted && !inCallback && !freeing && !err
      modifies this, replies, replies.repr
      ensures Valid() && fresh(replies.repr - old(replies.repr)) && !inCallback && !aborted
      ensures accepted == old(accepted) && answers == old(answers)
      ensures freed == (broken || (old(disconnecting) && old(obuf) == 0 && old(replies.Contents()) == []))
      ensures !freed ==> !freeing && !err && log == old(log) && disconnecting == old(disconnecting) && obuf == old(obuf)
      ensures !freed ==> replies.Contents() == old(replies.Contents())
      ensures old(log) <= log && executed == old(executed) + Fns(log[|old(log)|..])
      ensures requests
           == old(requests) + (if broken then [Stop] else []) + Performed(behave, log[|old(log)|..], old(executed))
    {
      hide CallbackList.Valid, CallbackList.Contents, InOrder, Fair, Performed, Fns;
      NothingPerformed(behave, executed);
      replies.Emptiness();
      assert log[|log|..] == [];
      assert requests + [] + [] == requests;
      if broken {
        err := true;
        DisconnectNow();
      } else if disconnecting && obuf == 0 && replies.head == null {
        replies.Emptiness();
        DisconnectNow();
      }
    }
  }

  /** What is asked while replies are handed out: by the callbacks consumed, with a failure after
      the first `q` of them if there is one. */
  function Answered(behave: nat -> seq<Action>, consumed: seq<Consumed>, x: nat, q: nat, failed: bool): seq<Request>
    requires q <= |consumed|
  {
    Performed(behave, consumed[..q], x) + (if failed then [Stop] else []) +
    Performed(behave, consumed[q..], x + Fns(consumed[..q]))
  }

  lemma {:induction false} AnsweredParts(behave: nat -> seq<Action>, a: seq<Consumed>, b: seq<Consumed>, x: nat, failed: bool,
                                         before: seq<Request>)
    ensures before + Answered(behave, a + b, x, |a|, failed)
         == before + Performed(behave, a, x) + (if failed then [Stop] else []) + Performed(behave, b, x + Fns(a))
  {
    hide Performed, Fns;
    assert (a + b)[..|a|] == a && (a + b)[|a|..] == b;
  }

  lemma {:induction false} AnsweredAll(behave: nat -> seq<Action>, consumed: seq<Consumed>, x: nat, failed: bool)
    ensures Answered(behave, consumed, x, |consumed|, failed)
         == Performed(behave, consumed, x) + if failed then [Stop] else []
  {
    assert consumed[..|consumed|] == consumed && consumed[|consumed|..] == [];
  }

  // ---------- Whole runs ----------

  /** What happens to the context from outside its callbacks. */
  datatype Event =
    | UserCommand(fn: bool, len: nat)
    | UserDisconnect
    | UserFree
    | Readable(incoming: seq<Reply>, broken: bool)
    | ConnectFailed
    | ReadFailed
    | Written(n: nat)
    | WriteFailed

  /** All replies that arrive in a run. */
  function Arrived(events: seq<Event>): seq<Reply> {
    if events == [] then []
    else
      var e := events[|events| - 1];
      Arrived(events[..|events| - 1]) + if e.Readable? then e.incoming else []
  }

  /** Events after which the context is gone. */
  predicate Ends(e: Event) {
    e.UserFree? || e.ConnectFailed? || e.ReadFailed? || e.WriteFailed? || (e.Readable? && e.broken)
  }

  /** What the event itself asks for. */
  function Own(e: Event): seq<Request> {
    match e
    case UserCommand(fn, len) => [Ask(fn, len)]
    case Written(_) => []
    case Readable(_, _) => []
    case _ => [Stop]
  }

  /** Everything asked during one event: by the event itself and by the callbacks it consumes. */
  function Part(behave: nat -> seq<Action>, e: Event, consumed: seq<Consumed>, x: nat, q: nat, failed: bool): seq<Request>
    requires q <= |consumed|
  {
    if e.Readable? then Answered(behave, consumed, x, q, failed) else Own(e) + Performed(behave, consumed, x)
  }

  /** A failure inside a read event is a reader error or an error reply. */
  predicate MayFail(e: Event) {
    e.Readable? && (e.broken || exists i :: 0 <= i < |e.incoming| && e.incoming[i].ErrorReply?)
  }

  ghost predicate Idle(c: Context)
    reads c
  {
    !c.freed && !c.aborted && !c.inCallback && !c.freeing && !c.err && |c.answers| == |c.log|
  }

  /** One event. */
  method Handle(c: Context, e: Event) returns (ghost q: nat, ghost failed: bool)
    requires c.Valid() && Idle(c)
    modifies c, c.replies, c.replies.repr
    ensures c.Valid() && fresh(c.replies.repr - old(c.replies.repr)) && !c.inCallback
    ensures old(c.accepted) <= c.accepted
    ensures var more := if e.Readable? then e.incoming else [];
            && old(c.answers) <= c.answers <= old(c.answers) + more
            && (!c.freed ==> |c.answers| == |c.log|)
            && (!c.freed && !c.aborted ==> c.answers == old(c.answers) + more)
            && (c.aborted ==> Spontaneous(c.accepted, c.answers, old(c.answers) + more))
    ensures old(c.Closing()) ==> c.accepted == old(c.accepted)
    ensures !c.freed && !c.aborted ==> Idle(c)
    ensures Ends(e) ==> c.freed || c.aborted
    ensures e.UserDisconnect? ==> c.freed || c.disconnecting
    ensures e.UserCommand? ==>
      && c.accepted == (if old(c.Closing()) then old(c.accepted) else old(c.accepted) + [Callback(|old(c.accepted)|, e.fn)])
      && c.obuf == (if old(c.Closing()) then old(c.obuf) else old(c.obuf) + e.len)
    ensures e.Written? ==> c.accepted == old(c.accepted) && c.obuf == if e.n <= old(c.obuf) then old(c.obuf) - e.n else 0
    ensures old(c.log) <= c.log && c.executed == old(c.executed) + Fns(c.log[|old(c.log)|..])
    ensures q <= |c.log| - |old(c.log)| && (failed ==> MayFail(e))
    ensures c.requests == old(c.requests) + Part(c.behave, e, c.log[|old(c.log)|..], old(c.executed), q, failed)
  {
    hide CallbackList.Valid, CallbackList.Contents, InOrder, Fair, Performed, Fns, Answered, Spontaneous;
    q, failed := 0, false;
    NothingPerformed(c.behave, c.executed);
    assert c.log[|c.log|..] == [];
    match e
    case UserCommand(fn, len) =>
      var _ := c.AsyncCommand(fn, len);
    case UserDisconnect =>
      c.AsyncDisconnect();
    case UserFree =>
      c.AsyncFree();
    case Readable(incoming, broken) =>
      q, failed := c.ProcessCallbacks(incoming, broken);
    case ConnectFailed =>
      Fail(c);
    case ReadFailed =>
      Fail(c);
    case Written(n) =>
      var sent := if n <= c.obuf then n else c.obuf;
      c.written := c.written + sent;
      c.obuf := c.obuf - sent;
    case WriteFailed =>
      Fail(c);
  }

  /** An error of the connection. */
  method Fail(c: Context)
    requires c.Valid() && Idle(c)
    modifies c, c.replies, c.replies.repr
    ensures c.Valid() && fresh(c.replies.repr - old(c.replies.repr))
    ensures c.freed && !c.inCallback && !c.aborted && c.answers == old(c.answers) && c.accepted == old(c.accepted)
    ensures old(c.log) <= c.log && c.executed == old(c.executed) + Fns(c.log[|old(c.log)|..])
    ensures c.requests == old(c.requests) + ([Stop] + Performed(c.behave, c.log[|old(c.log)|..], old(c.executed)))
  {
    hide CallbackList.Valid, CallbackList.Contents, InOrder, Fair, Performed, Fns;
    c.err := true;
    c.DisconnectNow();
  }

  /** Where the log stood before and after an event, and how many of the callbacks consumed in it
      came before a failure. */
  datatype Mark = Mark(from: nat, to: nat, q: nat, failed: bool)

  function LastOf(marks: seq<Mark>): nat {
    if marks == [] then 0 else marks[|marks| - 1].to
  }

  /** The marks cut the log into the parts of the events, one after the other. */
  ghost predicate Marked(events: seq<Event>, log: seq<Consumed>, marks: seq<Mark>) {
    marks != [] ==>
      var n := |marks| - 1;
      var m := marks[n];
      && n < |events| && m.from <= m.to <= |log| && m.q <= m.to - m.from && (m.failed ==> MayFail(events[n]))
      && m.from == LastOf(marks[..n]) && Marked(events, log, marks[..n])
  }

  /** Everything asked in the first events of a run, in order. */
  ghost function History(behave: nat -> seq<Action>, events: seq<Event>, log: seq<Consumed>, marks: seq<Mark>): seq<Request>
    requires Marked(events, log, marks)
  {
    if marks == [] then []
    else
      var n := |marks| - 1;
      var m := marks[n];
      History(behave, events, log, marks[..n]) +
      Part(behave, events[n], log[m.from..m.to], Fns(log[..m.from]), m.q, m.failed)
  }

  lemma {:induction false} MarkedMore(behave: nat -> seq<Action>, events: seq<Event>, before: seq<Consumed>, log: seq<Consumed>,
                                      marks: seq<Mark>, m: Mark)
    requires Marked(events, before, marks) && before <= log && |marks| < |events|
    requires m.from == |before| == LastOf(marks) && m.to == |log|
    requires m.q <= m.to - m.from && (m.failed ==> MayFail(events[|marks|]))
    ensures Marked(events, log, marks + [m])
    ensures History(behave, events, log, marks + [m])
         == History(behave, events, before, marks)
          + Part(behave, events[|marks|], log[|before|..], Fns(before), m.q, m.failed)
  {
    hide Part, Fns, MayFail;
    HistorySame(behave, events, before, log, marks);
    assert (marks + [m])[..|marks|] == marks;
    assert log[..m.from] == before && log[m.from..m.to] == log[|before|..];
  }

  lemma {:induction false} HistorySame(behave: nat -> seq<Action>, events: seq<Event>, before: seq<Consumed>, log: seq<Consumed>,
                                       marks: seq<Mark>)
    requires Marked(events, before, marks) && before <= log
    ensures Marked(events, log, marks)
    ensures History(behave, events, before, marks) == History(behave, events, log, marks)
  {
    hide Part, Fns, MayFail;
    if marks != [] {
      var n := |marks| - 1;
      var m := marks[n];
      HistorySame(behave, events, before, log, marks[..n]);
      assert before[m.from..m.to] == log[m.from..m.to] && before[..m.from] == log[..m.from];
    }
  }

  /** Every run, whatever the callbacks do: exactly the commands asked before teardown began, by
      the user and by callbacks, are accepted; replies go to their callbacks in order, no callback
      is consumed twice, and a freed context has consumed all of them. */
  method Run(events: seq<Event>, behave: nat -> seq<Action>)
    returns (accepted: seq<Callback>, log: seq<Consumed>, freed: bool, aborted: bool, ghost answers: seq<Reply>,
             ghost marks: seq<Mark>)
    ensures InOrder(accepted, log, answers)
    ensures answers <= Arrived(events)
    ensures !freed ==> |log| == |answers|
    ensures freed ==> |log| == |accepted|
    ensures !freed && !aborted ==> answers == Arrived(events)
    ensures aborted ==> Spontaneous(accepted, answers, Arrived(events))
    ensures (exists i :: 0 <= i < |events| && Ends(events[i])) ==> freed || aborted
    ensures Marked(events, log, marks) && accepted == Numbered(Granted(History(behave, events, log, marks)))
    ensures LastOf(marks) == |log|
    ensures !freed && !aborted ==> |marks| == |events|
  {
    hide Context.Valid, Tracked, Part, History, Marked, Fns, MayFail, Spontaneous, Arrived, Ends;
    var c := new Context(behave);
    ArrivedNone(events[..0]);
    var j := 0;
    marks := [];
    NoMarks(c, events);
    while j < |events| && !c.freed && !c.aborted
      invariant 0 <= j == |marks| <= |events| && fresh(c) && fresh(c.replies) && fresh(c.replies.repr)
      invariant c.Valid() && c.behave == behave && (!c.freed && !c.aborted ==> Idle(c))
      invariant !c.freed && !c.aborted ==> forall i :: 0 <= i < j ==> !Ends(events[i])
      invariant c.answers <= Arrived(events[..j])
      invariant !c.freed && !c.aborted ==> c.answers == Arrived(events[..j])
      invariant !c.freed ==> |c.log| == |c.answers|
      invariant c.aborted ==> Spontaneous(c.accepted, c.answers, Arrived(events[..j]))
      invariant Tracked(c, events, marks)
    {
      ArrivedStep(events, j);
      marks := HandleNext(c, events, j, marks);
      j := j + 1;
    }
    ArrivedPrefix(events, j);
    assert events[..|events|] == events;
    Outcome(c, events, marks);
    SpontaneousStays(c.accepted, c.answers, Arrived(events[..j]), Arrived(events));
    return c.accepted, c.log, c.freed, c.aborted, c.answers, marks;
  }

  /** The marks account for everything asked of the context. */
  ghost predicate Tracked(c: Context, events: seq<Event>, marks: seq<Mark>)
    reads c
  {
    && Marked(events, c.log, marks) && LastOf(marks) == |c.log| && c.executed == Fns(c.log)
    && c.requests == History(c.behave, events, c.log, marks)
  }

  method HandleNext(c: Context, events: seq<Event>, j: nat, ghost marks: seq<Mark>) returns (ghost marks': seq<Mark>)
    requires c.Valid() && Idle(c) && j == |marks| < |events| && Tracked(c, events, marks)
    modifies c, c.replies, c.replies.repr
    ensures c.Valid() && fresh(c.replies.repr - old(c.replies.repr)) && !c.inCallback
    ensures |marks'| == |marks| + 1 && Tracked(c, events, marks')
    ensures var more := if events[j].Readable? then events[j].incoming else [];
            && old(c.answers) <= c.answers <= old(c.answers) + more
            && (!c.freed ==> |c.answers| == |c.log|)
            && (!c.freed && !c.aborted ==> c.answers == old(c.answers) + more)
            && (c.aborted ==> Spontaneous(c.accepted, c.answers, old(c.answers) + more))
    ensures !c.freed && !c.aborted ==> Idle(c) && !Ends(events[j])
  {
    hide Context.Valid, Part, History, Marked, Fns, MayFail, Spontaneous, Ends;
    ghost var before := c.log;
    ghost var q, failed := Handle(c, events[j]);
    ghost var m := Mark(|before|, |c.log|, q, failed);
    MarkedMore(c.behave, events, before, c.log, marks, m);
    assert before + c.log[|before|..] == c.log;
    FnsMore(before, c.log[|before|..]);
    marks' := marks + [m];
  }

  lemma {:induction false} Outcome(c: Context, events: seq<Event>, marks: seq<Mark>)
    requires c.Valid() && Tracked(c, events, marks)
    ensures InOrder(c.accepted, c.log, c.answers)
    ensures Marked(events, c.log, marks) && LastOf(marks) == |c.log|
    ensures c.accepted == Numbered(Granted(History(c.behave, events, c.log, marks)))
    ensures c.freed ==> |c.log| == |c.accepted|
  {
    assert c.freed ==> c.accepted[|c.log|..] == [];
  }

  lemma {:induction false} ArrivedNone(events: seq<Event>)
    requires events == []
    ensures Arrived(events) == []
  {
  }

  lemma {:induction false} ArrivedStep(events: seq<Event>, j: nat)
    requires j < |events|
    ensures Arrived(events[..j + 1]) == Arrived(events[..j]) + if events[j].Readable? then events[j].incoming else []
  {
    assert events[..j + 1][..j] == events[..j];
  }

  lemma {:induction false} SpontaneousStays(accepted: seq<Callback>, answers: seq<Reply>, arrived: seq<Reply>, more: seq<Reply>)
    requires arrived <= more
    ensures Spontaneous(accepted, answers, arrived) ==> Spontaneous(accepted, answers, more)
  {
  }

  lemma {:induction false} NoMarks(c: Context, events: seq<Event>)
    requires c.log == [] && c.requests == [] && c.executed == 0
    ensures Tracked(c, events, [])
  {
  }

  lemma {:induction false} ArrivedPrefix(events: seq<Event>, j: nat)
    requires j <= |events|
    ensures Arrived(events[..j]) <= Arrived(events)
  {
    if j < |events| {
      var n := |events| - 1;
      ArrivedPrefix(events[..n], j);
      assert events[..n][..j] == events[..j];
    } else {
      assert events[..j] == events;
    }
  }
}
