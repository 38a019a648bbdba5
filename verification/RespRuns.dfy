/**
 Whole runs of the reader: however a byte stream is cut into Feed calls, draining the reader
 yields the replies and the final error that the grammar assigns to the uncut stream.
 */
module RespRuns {
  import opened Common
  import opened Bytes
  import opened RespGrammar
  import opened RespStack
  import opened RespReader

  function Concat(chunks: seq<seq<Byte>>): seq<Byte> {
    if chunks == [] then [] else Concat(chunks[..|chunks| - 1]) + chunks[|chunks| - 1]
  }

  function EndingOf(err: Option<ProtocolError>): Ending {
    match err case None => Open case Some(e) => Failed(e)
  }

  ghost function After(p: seq<Byte>, t: seq<Byte>): Stream {
    Replies(p + t)
  }

  /** Bytes `p0` yield `replies` and leave `p` pending, whatever follows. */
  ghost predicate Yields(p0: seq<Byte>, replies: seq<Reply>, p: seq<Byte>) {
    forall t: seq<Byte> :: After(p0, t) == Prepend(replies, After(p, t))
  }

  /** Bytes `p0` yield `replies` and then fail, whatever follows. */
  ghost predicate Breaks(p0: seq<Byte>, replies: seq<Reply>, e: ProtocolError) {
    forall t: seq<Byte> :: After(p0, t) == Stream(replies, Failed(e))
  }

  lemma {:induction false} YieldsDone(p0: seq<Byte>, replies: seq<Reply>, p: seq<Byte>, v: Reply, rest: seq<Byte>)
    requires Yields(p0, replies, p) && ParseReply(p, 0) == Done(v, rest)
    ensures Yields(p0, replies + [v], rest)
  {
    hide ParseReply;
    forall t: seq<Byte> ensures After(p0, t) == Prepend(replies + [v], After(rest, t)) {
      ParseReplyExtends(p, 0, t);
      assert After(p0, t) == Prepend(replies, After(p, t));
      assert replies + ([v] + After(rest, t).replies) == replies + [v] + After(rest, t).replies;
    }
  }

  lemma {:induction false} YieldsBad(p0: seq<Byte>, replies: seq<Reply>, p: seq<Byte>, e: ProtocolError)
    requires Yields(p0, replies, p) && ParseReply(p, 0) == Bad(e)
    ensures Breaks(p0, replies, e)
  {
    hide ParseReply;
    forall t: seq<Byte> ensures After(p0, t) == Stream(replies, Failed(e)) {
      ParseReplyExtends(p, 0, t);
      assert After(p0, t) == Prepend(replies, After(p, t));
    }
  }

  lemma {:induction false} YieldsFed(p0: seq<Byte>, replies: seq<Reply>, p: seq<Byte>, data: seq<Byte>)
    ensures Yields(p0, replies, p) ==> Yields(p0 + data, replies, p + data)
  {
    if Yields(p0, replies, p) {
      forall t: seq<Byte> ensures After(p0 + data, t) == Prepend(replies, After(p + data, t)) {
        assert p0 + data + t == p0 + (data + t) && p + data + t == p + (data + t);
        assert After(p0, data + t) == Prepend(replies, After(p, data + t));
      }
    }
  }

  lemma {:induction false} BreaksFed(p0: seq<Byte>, replies: seq<Reply>, data: seq<Byte>, e: ProtocolError)
    requires Breaks(p0, replies, e)
    ensures Breaks(p0 + data, replies, e)
  {
    forall t: seq<Byte> ensures After(p0 + data, t) == Stream(replies, Failed(e)) {
      assert p0 + data + t == p0 + (data + t);
      assert After(p0, data + t) == Stream(replies, Failed(e));
    }
  }

  lemma {:induction false} YieldsTrans(p0: seq<Byte>, r1: seq<Reply>, p1: seq<Byte>, r2: seq<Reply>, p2: seq<Byte>,
                    err: Option<ProtocolError>)
    requires Yields(p0, r1, p1)
    requires err.None? ==> Yields(p1, r2, p2)
    requires err.Some? ==> Breaks(p1, r2, err.value)
    ensures err.None? ==> Yields(p0, r1 + r2, p2)
    ensures err.Some? ==> Breaks(p0, r1 + r2, err.value)
  {
    forall t: seq<Byte>
      ensures err.None? ==> After(p0, t) == Prepend(r1 + r2, After(p2, t))
      ensures err.Some? ==> After(p0, t) == Stream(r1 + r2, Failed(err.value))
    {
      assert After(p0, t) == Prepend(r1, After(p1, t));
      if err.None? {
        assert After(p1, t) == Prepend(r2, After(p2, t));
        assert r1 + (r2 + After(p2, t).replies) == r1 + r2 + After(p2, t).replies;
      } else {
        assert After(p1, t) == Stream(r2, Failed(err.value));
      }
    }
  }

  /** Calls GetReply until it has no more. The replies are read from their objects. */
  method Drain(r: Reader) returns (replies: seq<Reply>)
    requires r.Valid()
    modifies r, r.rstack
    ensures r.Valid()
    ensures old(r.err).Some? ==> replies == [] && r.err == old(r.err)
    ensures old(r.err).None? && r.err.Some? ==> Breaks(old(r.Pending()), replies, r.err.value)
    ensures old(r.err).None? && r.err.None? ==>
      r.BufferOk() && ParseReply(r.Pending(), 0) == More && Yields(old(r.Pending()), replies, r.Pending())
  {
    replies := [];
    if r.err.Some? {
      return;
    }
    ghost var p0 := r.Pending();
    var more := true;
    while more
      invariant r.Valid() && (more ==> r.err.None?)
      invariant r.err.Some? ==> Breaks(p0, replies, r.err.value)
      invariant r.err.None? ==> r.BufferOk() && Yields(p0, replies, r.Pending())
      invariant r.err.None? && !more ==> ParseReply(r.Pending(), 0) == More
      decreases more, if r.err.None? then |r.Pending()| else 0
    {
      ghost var p := r.Pending();
      var ok, out := r.GetReply();
      if !ok {
        YieldsBad(p0, replies, p, r.err.value);
        more := false;
      } else if out.None? {
        more := false;
      } else {
        ghost var v := ParseReply(p, 0).value;
        YieldsDone(p0, replies, p, v, r.Pending());
        assert out.value[0..|Layout(v, 0)|] == Layout(v, 0);
        TreeOfLayout(out.value, v, 0);
        replies := replies + [Tree(out.value, 0).value];
      }
    }
  }

  /** One Feed and the draining after it, on a reader that has consumed `p0`. */
  method FeedAndDrain(r: Reader, data: seq<Byte>, avail: nat, ghost p0: seq<Byte>, replies: seq<Reply>)
    returns (replies': seq<Reply>)
    requires r.Valid() && Summary(r, p0, replies)
    modifies r, r.rstack
    ensures r.Valid() && Summary(r, p0 + data, replies')
  {
    hide Yields, Breaks, ParseReply, StackOk, Tracks, Picture;
    ghost var p := if r.err.None? then r.Pending() else [];
    ghost var err0 := r.err;
    YieldsFed(p0, replies, p, data);
    var _ := r.Feed(data, avail);
    var out := Drain(r);
    replies' := replies + out;
    if err0.None? {
      YieldsTrans(p0 + data, replies, p + data, out, if r.err.None? then r.Pending() else [], r.err);
    } else {
      BreaksFed(p0, replies, data, r.err.value);
      assert replies' == replies;
    }
  }

  /** `replies` is all that the consumed bytes `p0` hold. */
  ghost predicate Summary(r: Reader, p0: seq<Byte>, replies: seq<Reply>)
    requires r.Valid()
    reads r, r.rstack
  {
    match r.err
    case Some(e) => Breaks(p0, replies, e)
    case None => Yields(p0, replies, r.Pending()) && ParseReply(r.Pending(), 0) == More
  }

  /** Feed the chunks one by one, draining after each. The outcome is that of the grammar
      on the concatenated bytes: it does not depend on where they were cut. `avail` is the
      spare buffer allocation seen by each call. */
  method ReadAll(chunks: seq<seq<Byte>>, avail: nat -> nat)
    returns (replies: seq<Reply>, err: Option<ProtocolError>)
    ensures Stream(replies, EndingOf(err)) == Replies(Concat(chunks))
  {
    hide Yields, Breaks, ParseReply, StackOk, Tracks, Picture, Replies;
    var r := new Reader();
    replies := [];
    YieldsNothing();
    for i := 0 to |chunks|
      invariant r.Valid() && fresh(r) && fresh(r.rstack)
      invariant Summary(r, Concat(chunks[..i]), replies)
    {
      assert chunks[..i + 1][..i] == chunks[..i];
      replies := FeedAndDrain(r, chunks[i], avail(i), Concat(chunks[..i]), replies);
    }
    assert chunks[..|chunks|] == chunks;
    SummaryDecides(Concat(chunks), replies, if r.err.None? then r.Pending() else [], r.err);
    return replies, r.err;
  }

  /** Two ways of cutting the same bytes. */
  method CutsAgree(a: seq<seq<Byte>>, b: seq<seq<Byte>>, availA: nat -> nat, availB: nat -> nat)
    returns (ra: seq<Reply>, ea: Option<ProtocolError>, rb: seq<Reply>, eb: Option<ProtocolError>)
    requires Concat(a) == Concat(b)
    ensures ra == rb && ea == eb
  {
    ra, ea := ReadAll(a, availA);
    rb, eb := ReadAll(b, availB);
  }

  lemma {:induction false} YieldsNothing()
    ensures Yields([], [], []) && ParseReply([], 0) == More
  {
  }

  lemma {:induction false} SummaryDecides(p0: seq<Byte>, replies: seq<Reply>, p: seq<Byte>, err: Option<ProtocolError>)
    requires match err
             case Some(e) => Breaks(p0, replies, e)
             case None => Yields(p0, replies, p) && ParseReply(p, 0) == More
    ensures Replies(p0) == Stream(replies, EndingOf(err))
  {
    assert p0 + [] == p0 && p + [] == p;
    assert After(p0, []) == Replies(p0);
    assert After(p, []) == Replies(p);
  }

  /** A stream of encoded replies, each nested at most eight arrays deep, is read back whole. */
  lemma {:induction false} EncodedRepliesRead(vs: seq<Reply>)
    requires WellFormedAll(vs) && NestingMany(vs) <= MAX_DEPTH
    ensures Replies(EncodeMany(vs)) == Stream(vs, Open)
  {
    if vs != [] {
      EncodeParses(vs[0], 0, EncodeMany(vs[1..]));
      EncodedRepliesRead(vs[1..]);
      assert [vs[0]] + vs[1..] == vs;
    }
  }

  /** The reader inverts the encoder under every cut. */
  method ReadEncoded(ghost vs: seq<Reply>, chunks: seq<seq<Byte>>, avail: nat -> nat)
    returns (replies: seq<Reply>, err: Option<ProtocolError>)
    requires WellFormedAll(vs) && NestingMany(vs) <= MAX_DEPTH
    requires Concat(chunks) == EncodeMany(vs)
    ensures replies == vs && err == None
  {
    EncodedRepliesRead(vs);
    replies, err := ReadAll(chunks, avail);
  }
}
