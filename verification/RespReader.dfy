/**
 The incremental RESP reader: a buffer with a cursor, a fixed stack of nine read tasks and
 reply objects that are hooked into their parents as they are created. Every operation is
 proved against the recursive grammar applied to the bytes pending in the reader.
 */
module RespReader {
  import opened Common
  import opened Bytes
  import opened RespGrammar
  import opened RespStack

  /** A slot of the task stack; `kind` is None until the type byte has been read, `obj` and
      `parent` are the C pointers (object address, stack position). */
  datatype Task = Task(kind: Option<Kind>, elements: int, idx: int, obj: Option<nat>, parent: Option<nat>)

  const STACK_SIZE: nat := 9
  const DISCARD_AT: nat := 1024
  const MAX_BUF: nat := 16 * 1024

  /** Task `k` is an open array and task `k + 1` reads one of its elements. */
  ghost predicate Level(stack: seq<Task>, frames: seq<Frame>, k: nat)
    requires k + 1 < |stack| && k < |frames| && OpenFrames(frames)
  {
    && stack[k].kind == Some(ArrayKind)
    && stack[k].elements == frames[k].count
    && stack[k].obj == Some(Address(frames, k))
    && stack[k + 1].idx == |frames[k].done|
    && stack[k + 1].parent == Some(k)
  }

  /** The tasks below position `|frames|` are the open arrays. */
  ghost predicate StackOk(stack: seq<Task>, frames: seq<Frame>) {
    && |stack| == STACK_SIZE && |frames| < STACK_SIZE
    && OpenFrames(frames)
    && stack[0].parent == None
    && forall k :: 0 <= k < |frames| ==> Level(stack, frames, k)
  }

  /** Only the current task changes; the innermost frame may take one more element. */
  lemma {:induction false} StackOkDelivered(stack: seq<Task>, frames: seq<Frame>, v: Reply, cur: Task)
    requires StackOk(stack, frames) && frames != [] && !IsLast(frames)
    requires cur.idx == stack[|frames|].idx + 1 && cur.parent == stack[|frames|].parent
    ensures OpenFrames(Deliver(frames, v))
    ensures StackOk(stack[|frames| := cur], Deliver(frames, v))
  {
    var n := |frames| - 1;
    var frames' := Deliver(frames, v);
    var stack' := stack[|frames| := cur];
    forall k | 0 <= k < |frames'| ensures Level(stack', frames', k) {
      assert Level(stack, frames, k);
      assert frames'[..k] == frames[..k];
    }
  }

  lemma {:induction false} StackOkPopped(stack: seq<Task>, frames: seq<Frame>)
    requires StackOk(stack, frames) && frames != []
    ensures OpenFrames(frames[..|frames| - 1])
    ensures StackOk(stack, frames[..|frames| - 1])
  {
    var frames' := frames[..|frames| - 1];
    forall k | 0 <= k < |frames'| ensures Level(stack, frames', k) {
      assert Level(stack, frames, k);
      assert frames'[..k] == frames[..k];
    }
  }

  lemma {:induction false} StackOkPushed(stack: seq<Task>, frames: seq<Frame>, n: nat, cur: Task, next: Task)
    requires StackOk(stack, frames) && |frames| + 1 < STACK_SIZE && n > 0
    requires cur == stack[|frames|].(elements := n, obj := Some(|Picture(frames, true)|))
    requires cur.kind == Some(ArrayKind)
    requires next.idx == 0 && next.parent == Some(|frames|)
    ensures var stack' := stack[|frames| := cur][|frames| + 1 := next];
            StackOk(stack', frames + [Frame(n, [])])
  {
    var stack' := stack[|frames| := cur][|frames| + 1 := next];
    var frames' := frames + [Frame(n, [])];
    assert frames'[..|frames|] == frames;
    forall k | 0 <= k < |frames'| ensures Level(stack', frames', k) {
      if k < |frames| {
        assert Level(stack, frames, k);
        assert frames'[..k] == frames[..k];
      }
    }
  }

  /** Find pointer to CRLF: two nested scans. */
  method SeekNewline(s: seq<Byte>) returns (r: Option<nat>)
    ensures r == FindCRLF(s)
  {
    var pos, len := 0, |s| - 1;
    while pos < len
      invariant 0 <= pos && (pos <= len || pos == 0)
      invariant forall j :: 0 <= j < pos ==> !IsCRLFAt(s, j)
    {
      while pos < len && s[pos] != CR
        invariant 0 <= pos <= len
        invariant forall j :: 0 <= j < pos ==> !IsCRLFAt(s, j)
      {
        pos := pos + 1;
      }
      if pos == len {
        FindCRLFIsFirst(s, pos);
        return None;
      } else if s[pos + 1] == LF {
        FindCRLFIsFirst(s, pos);
        return Some(pos);
      } else {
        pos := pos + 1;
      }
    }
    FindCRLFIsFirst(s, pos);
    return None;
  }

  /** Reads up to the first carriage return, as the C pointer walk does. */
  method ReadLongLong(s: seq<Byte>) returns (v: int)
    requires FindCRLF(s).Some?
    ensures v == NumberOf(s[..FindCRLF(s).value])
  {
    ghost var line := s[..FindCRLF(s).value];
    var mult: int := 1;
    var q: nat, n: nat := 0, 0;
    if s[0] == 45 {
      mult, q := -1, 1;
    } else if s[0] == 43 {
      q := 1;
    }
    ghost var body := line[if line == [] then 0 else q..];
    while s[q] != CR
      invariant q <= |line| && n >= 0
      invariant ReadDigits(body, 0) == ReadDigits(line[q..], n)
      decreases |line| - q
    {
      var dec := s[q] as int - 48;
      assert line[q..][1..] == line[q + 1..];
      if 0 <= dec < 10 {
        n := n * 10 + dec;
      } else {
        return -1;
      }
      q := q + 1;
    }
    return mult * n;
  }

  /** Length and reply object of the bulk item that `s` starts with, if all of it is there. */
  method ScanBulk(s: seq<Byte>, ghost depth: nat) returns (bytelen: Option<nat>, node: Node, ghost v: Reply)
    ensures bytelen.None? <==> ParseTyped(StringKind, s, depth) == More
    ensures bytelen.Some? ==>
      && 0 < bytelen.value <= |s|
      && ParseTyped(StringKind, s[..bytelen.value], depth) == Done(v, [])
      && forall base :: Layout(v, base) == [node]
  {
    bytelen, node, v := None, NilNode, Nil;
    var nl := SeekNewline(s);
    if nl.None? {
      return;
    }
    var i := nl.value;
    var n := ReadLongLong(s);
    if n < 0 {
      NilItemParses(s, i, depth);
      return Some(i + 2), NilNode, Nil;
    }
    if i + 2 + n + 2 <= |s| {
      BulkItemParses(s, i, n, depth);
      var text := s[i + 2..i + 2 + n];
      return Some(i + 2 + n + 2), TextNode(StringKind, text), Str(text);
    }
  }

  /** Keeps the bytes from `start` to `end`, both inclusive; negative positions count from the end. */
  function SdsRange(s: seq<Byte>, start: int, end: int): (r: seq<Byte>)
    ensures |r| <= |s|
  {
    if s == [] then s
    else
      var from := if start >= 0 then start else if |s| + start < 0 then 0 else |s| + start;
      var to := if end >= 0 then end else if |s| + end < 0 then 0 else |s| + end;
      if from > to || from >= |s| then []
      else if to >= |s| then s[from..]
      else s[from..to + 1]
  }

  lemma {:induction false} SdsRangeDrops(s: seq<Byte>, n: nat)
    requires n <= |s|
    ensures SdsRange(s, n, -1) == s[n..]
  {
  }

  class Reader {
    var err: Option<ProtocolError>
    var buf: seq<Byte>
    var pos: nat
    var len: nat
    const rstack: array<Task>
    var ridx: int
    var reply: Option<nat>
    /** The reply objects created for the current reply; an address is a position. */
    var objs: seq<Node>

    ghost var frames: seq<Frame>
    ghost var pre: seq<Byte>
    ghost var root: Reply

    ghost predicate BufferOk()
      reads this
    {
      len == |buf| && pos <= len && rstack.Length == STACK_SIZE
    }

    ghost function Unread(): seq<Byte>
      requires BufferOk()
      reads this
    {
      buf[pos..]
    }

    /** A reply is being read. */
    ghost predicate Running()
      reads this, rstack
    {
      && BufferOk() && err == None
      && 0 <= ridx == |frames| < STACK_SIZE
      && StackOk(rstack[..], frames)
      && objs == Picture(frames, false)
      && Tracks(pre, frames, rstack[ridx].kind)
      && reply == (if ridx == 0 then None else Some(0))
    }

    /** The current reply is complete and not yet emitted. */
    ghost predicate Finished()
      reads this, rstack
    {
      && BufferOk() && err == None
      && ridx == -1
      && objs == Layout(root, 0)
      && Completes(pre, root)
      && reply == Some(0)
    }

    ghost predicate Cleared()
      reads this
    {
      && rstack.Length == STACK_SIZE
      && ridx == -1 && buf == [] && pos == 0 && len == 0 && reply == None && pre == []
    }

    /** What holds between calls. */
    ghost predicate Valid()
      reads this, rstack
    {
      if err.Some? then Cleared()
      else if ridx == -1 then BufferOk() && pre == [] && reply == None
      else Running() && !(ridx == 8 && rstack[8].kind == Some(ArrayKind))
    }

    /** The bytes fed and not yet part of an emitted reply. */
    ghost function Pending(): seq<Byte>
      requires BufferOk()
      reads this
    {
      pre + Unread()
    }

    constructor ()
      ensures Valid() && err == None && BufferOk() && Pending() == [] && fresh(rstack)
    {
      err, buf, pos, len, ridx, reply, objs := None, [], 0, 0, -1, None, [];
      frames, pre, root := [], [], Nil;
      rstack := new Task[STACK_SIZE](_ => Task(None, 0, 0, None, None));
    }

    /** Clears the buffer and the task stack. */
    method SetError(e: ProtocolError)
      requires rstack.Length == STACK_SIZE
      modifies this
      ensures err == Some(e) && Cleared()
    {
      reply, buf, pos, len, ridx, err := None, [], 0, 0, -1, Some(e);
      pre := [];
    }

    /** A line, without its CRLF, if the buffer holds all of it. */
    method ReadLine() returns (p: nat, line: Option<nat>)
      requires BufferOk()
      modifies this`pos
      ensures BufferOk() && p == old(pos)
      ensures line == FindCRLF(old(Unread()))
      ensures pos == (if line.None? then old(pos) else old(pos) + line.value + 2)
    {
      p := pos;
      line := SeekNewline(buf[pos..len]);
      assert buf[pos..len] == Unread();
      if line.Some? {
        pos := pos + line.value + 2;
      }
    }

    /** createStringObject, createIntegerObject, createNilObject, createArrayObject: allocate
        the object and store it in its parent's element slot, which is in range and empty. */
    method Create(cur: Task, node: Node) returns (obj: nat)
      requires BufferOk() && 0 <= ridx == |frames| && StackOk(rstack[..], frames)
      requires cur == rstack[ridx] && objs == Picture(frames, false)
      modifies this`objs
      ensures obj == |Picture(frames, true)|
      ensures objs == Picture(frames, true) + [node]
    {
      obj := |objs|;
      if cur.parent.Some? {
        assert ridx > 0;
        assert Level(rstack[..], frames, ridx - 1);
        HookIn(frames);
        var parent := rstack[cur.parent.value].obj.value;
        assert objs[parent].ArrayNode? && objs[parent].element[cur.idx] == None;
        objs := objs[parent := ArrayNode(objs[parent].elements, objs[parent].element[cur.idx := Some(obj)])];
      } else {
        assert ridx > 0 ==> Level(rstack[..], frames, ridx - 1);
      }
      objs := objs + [node];
    }

    /** Pops finished arrays until a task is left to do. */
    method MoveToNextTask(ghost v: Reply)
      requires BufferOk() && 0 <= ridx == |frames| && StackOk(rstack[..], frames)
      requires objs == Picture(frames, true) + Layout(v, |Picture(frames, true)|)
      requires Unwinds(pre, frames, v)
      modifies this`ridx, this`frames, this`root, rstack
      ensures -1 <= ridx <= old(ridx)
      ensures ridx == -1 ==> objs == Layout(root, 0) && Completes(pre, root)
      ensures ridx >= 0 ==>
        && ridx > 0 && ridx == |frames| && StackOk(rstack[..], frames) && objs == Picture(frames, false)
        && Tracks(pre, frames, None) && rstack[ridx].kind == None
    {
      hide Resume, Unwind, Tracks, Unwinds, Completes, Picture, Layout;
      ghost var w := v;
      while ridx >= 0
        invariant BufferOk() && 0 <= ridx == |frames| <= old(ridx) && StackOk(rstack[..], frames)
        invariant objs == Picture(frames, true) + Layout(w, |Picture(frames, true)|)
        invariant Unwinds(pre, frames, w)
      {
        if ridx == 0 {
          assert frames == [];
          PictureNothing();
          UnwindsCompletes(pre, w);
          ridx := ridx - 1;
          root := w;
          return;
        }
        var cur, prv := rstack[ridx], rstack[ridx - 1];
        assert Level(rstack[..], frames, ridx - 1);
        assert prv.kind == Some(ArrayKind);
        if cur.idx == prv.elements - 1 {
          PictureClosed(frames, w);
          UnwindsCloses(pre, frames, w);
          StackOkPopped(rstack[..], frames);
          w, frames := Closed(frames, w), frames[..ridx - 1];
          ridx := ridx - 1;
        } else {
          assert cur.idx < prv.elements;
          PictureDelivered(frames, w);
          UnwindsResumes(pre, frames, w);
          StackOkDelivered(rstack[..], frames, w, cur.(kind := None, elements := -1, idx := cur.idx + 1));
          ghost var stack' := rstack[..][ridx := cur.(kind := None, elements := -1, idx := cur.idx + 1)];
          rstack[ridx] := cur.(kind := None, elements := -1, idx := cur.idx + 1);
          assert rstack[..] == stack';
          frames := Deliver(frames, w);
          return;
        }
      }
    }

    /** Verdict of one processing step, started with `was` pending. */
    ghost predicate Stepped(ok: bool, was: seq<Byte>, oldBuf: seq<Byte>, oldPos: nat)
      reads this, rstack
    {
      match err
      case Some(e) => !ok && Cleared() && Fails(was, e)
      case None =>
        && BufferOk() && Pending() == was && buf == oldBuf
        && (if ok then pos > oldPos else ParseReply(was, 0) == More && pos >= oldPos)
        && (if ok && ridx == -1 then Finished()
            else Running() && !(ridx == 8 && rstack[8].kind == Some(ArrayKind)))
    }

    lemma {:induction false} Blocked(k: Kind)
      requires Running() && rstack[ridx].kind == Some(k) && ParseTyped(k, Unread(), |frames|) == More
      ensures ParseReply(Pending(), 0) == More
    {
      assert Whole(pre, Unread()) == Resume(frames, Some(k), Unread());
    }

    /** Hook the object `node` for the completed item `v`, whose bytes are `c`. */
    method FinishItem(cur: Task, node: Node, ghost v: Reply, ghost c: seq<Byte>, ghost k: Kind,
                      ghost was: seq<Byte>, ghost oldPos: nat)
      requires Running() && cur == rstack[ridx] && cur.kind == Some(k)
      requires ParseTyped(k, c, |frames|) == Done(v, [])
      requires forall base :: Layout(v, base) == [node]
      requires was == pre + (c + Unread()) && pos > oldPos
      modifies this`objs, this`reply, this`ridx, this`frames, this`root, this`pre, rstack
      ensures Stepped(true, was, buf, oldPos)
    {
      hide Resume, Unwind, Tracks, Unwinds, Completes, Picture, ParseTyped, StackOk;
      assert c[..|c|] == c;
      TracksItem(pre, frames, k, c, |c|, v);
      assert was == pre + c + Unread();
      pre := pre + c;
      var obj := Create(cur, node);
      PictureNothing();
      if ridx == 0 {
        assert frames == [];
        reply := Some(obj);
      }
      MoveToNextTask(v);
    }

    method ProcessLineItem() returns (ok: bool)
      requires Running() && rstack[ridx].kind.Some?
      requires IsLineKind(rstack[ridx].kind.value)
      modifies this, rstack
      ensures Stepped(ok, old(Pending()), old(buf), old(pos))
    {
      hide Picture, StackOk, NumberOf, FindCRLF;
      var cur := rstack[ridx];
      ghost var u := Unread();
      var p, line := ReadLine();
      if line.None? {
        Blocked(cur.kind.value);
        return false;
      }
      var node;
      if cur.kind == Some(IntegerKind) {
        var v := ReadLongLong(buf[p..]);
        node := IntegerNode(v);
      } else {
        node := TextNode(cur.kind.value, buf[p..p + line.value]);
      }
      assert buf[p..p + line.value] == u[..line.value];
      LineItemParses(cur.kind.value, u, line.value, |frames|);
      assert u == u[..line.value + 2] + Unread();
      FinishItem(cur, node, LineValue(cur.kind.value, u[..line.value]), u[..line.value + 2], cur.kind.value,
                 pre + u, p);
      return true;
    }

    method ProcessBulkItem() returns (ok: bool)
      requires Running() && rstack[ridx].kind == Some(StringKind)
      modifies this, rstack
      ensures Stepped(ok, old(Pending()), old(buf), old(pos))
    {
      hide Picture, Layout, StackOk, NumberOf, FindCRLF;
      var cur := rstack[ridx];
      ghost var u, p := Unread(), pos;
      assert buf[pos..len] == u;
      var bytelen, node, v := ScanBulk(buf[pos..len], |frames|);
      if bytelen.None? {
        Blocked(StringKind);
        return false;
      }
      pos := pos + bytelen.value;
      assert u == u[..bytelen.value] + Unread();
      FinishItem(cur, node, v, u[..bytelen.value], StringKind, pre + u, p);
      return true;
    }

    method ProcessMultiBulkItem() returns (ok: bool)
      requires Running() && rstack[ridx].kind == Some(ArrayKind)
      modifies this, rstack
      ensures Stepped(ok, old(Pending()), old(buf), old(pos))
    {
      hide Picture, StackOk, NumberOf, FindCRLF;
      var cur := rstack[ridx];
      ghost var u, was := Unread(), Pending();
      if ridx == 8 {
        TooDeepFails(pre, frames, u);
        SetError(TooDeep);
        return false;
      }
      var p, line := ReadLine();
      if line.None? {
        Blocked(ArrayKind);
        return false;
      }
      assert u == u[..line.value + 2] + Unread();
      var elements := ReadLongLong(buf[p..]);
      if elements == -1 {
        EmptyArrayParses(u, line.value, |frames|);
        FinishItem(cur, NilNode, Nil, u[..line.value + 2], ArrayKind, was, p);
      } else if elements <= 0 {
        EmptyArrayParses(u, line.value, |frames|);
        FinishItem(cur, ArrayNode(elements, []), Array(elements, []), u[..line.value + 2], ArrayKind, was, p);
      } else {
        OpenArray(cur, elements, u, line.value, was, p);
      }
      return true;
    }

    /** createArrayObject with elements to come: the task stack grows. */
    method OpenArray(cur: Task, elements: nat, ghost u: seq<Byte>, ghost i: nat, ghost was: seq<Byte>, ghost oldPos: nat)
      requires Running() && ridx < 8 && cur == rstack[ridx] && cur.kind == Some(ArrayKind)
      requires FindCRLF(u) == Some(i) && NumberOf(u[..i]) == elements > 0
      requires was == pre + (u[..i + 2] + Unread()) && pos > oldPos
      modifies this`objs, this`reply, this`ridx, this`frames, this`pre, rstack
      ensures Stepped(true, was, buf, oldPos)
    {
      hide Resume, Tracks, Picture, ParseReply;
      var root := ridx == 0;
      PictureNothing();
      assert root ==> frames == [];
      TracksOpen(pre, frames, u, i, elements);
      assert was == pre + u[..i + 2] + Unread();
      pre := pre + u[..i + 2];
      var obj := Create(cur, ArrayNode(elements, Blank(elements)));
      PushTask(cur, elements, obj);
      PictureOpened(frames, elements);
      frames := frames + [Frame(elements, [])];
      if root {
        reply := Some(obj);
      }
    }

    method PushTask(cur: Task, elements: nat, obj: nat)
      requires BufferOk() && 0 <= ridx < 8 && ridx == |frames| && StackOk(rstack[..], frames)
      requires cur == rstack[ridx] && cur.kind == Some(ArrayKind) && elements > 0
      requires obj == |Picture(frames, true)|
      modifies this`ridx, rstack
      ensures BufferOk() && ridx == old(ridx) + 1 && rstack[ridx].kind == None
      ensures StackOk(rstack[..], frames + [Frame(elements, [])])
    {
      var next := Task(None, -1, 0, None, Some(ridx));
      StackOkPushed(rstack[..], frames, elements, cur.(elements := elements, obj := Some(obj)), next);
      ghost var stack' := rstack[..][ridx := cur.(elements := elements, obj := Some(obj))][ridx + 1 := next];
      rstack[ridx] := cur.(elements := elements, obj := Some(obj));
      ridx := ridx + 1;
      rstack[ridx] := next;
      assert rstack[..] == stack';
    }

    /** Reads the type byte if needed, then the item. */
    method ProcessItem() returns (ok: bool)
      requires Running() && !(ridx == 8 && rstack[8].kind == Some(ArrayKind))
      modifies this, rstack
      ensures Stepped(ok, old(Pending()), old(buf), old(pos))
    {
      hide Picture, Layout, StackOk, NumberOf, FindCRLF;
      if rstack[ridx].kind.None? {
        if len - pos < 1 {
          assert Whole(pre, Unread()) == Resume(frames, None, Unread());
          return false;
        }
        var b := buf[pos];
        ghost var was := Pending();
        TracksType(pre, frames, b);
        assert Unread() == [b] + buf[pos + 1..];
        assert was == pre + [b] + buf[pos + 1..];
        if KindOf(b).None? {
          FailsExtends(pre + [b], buf[pos + 1..], BadTypeByte(b));
          pos := pos + 1;
          SetError(BadTypeByte(b));
          return false;
        }
        TakeType(b);
      }
      match rstack[ridx].kind.value
      case StringKind => ok := ProcessBulkItem();
      case ArrayKind => ok := ProcessMultiBulkItem();
      case _ => ok := ProcessLineItem();
    }

    method TakeType(b: Byte)
      requires Running() && rstack[ridx].kind == None && KindOf(b).Some?
      requires pos < len && b == buf[pos] && Tracks(pre + [b], frames, KindOf(b))
      modifies this`pos, this`pre, rstack
      ensures Running() && rstack[ridx].kind == KindOf(b)
      ensures pos == old(pos) + 1 && Pending() == old(Pending())
    {
      StackOkTyped(rstack[..], frames, KindOf(b));
      assert Unread() == [b] + buf[pos + 1..];
      assert pre + Unread() == pre + [b] + buf[pos + 1..];
      ghost var stack' := rstack[..][ridx := rstack[ridx].(kind := KindOf(b))];
      rstack[ridx] := rstack[ridx].(kind := KindOf(b));
      assert rstack[..] == stack';
      pos := pos + 1;
      pre := pre + [b];
    }

    /** Appends to the buffer; `avail` is the buffer's spare allocation. */
    method Feed(data: seq<Byte>, avail: nat) returns (ok: bool)
      requires Valid()
      modifies this
      ensures Valid() && err == old(err)
      ensures ok <==> err == None
      ensures ok ==> BufferOk() && Pending() == old(Pending()) + data
    {
      hide StackOk, Picture, Tracks, ParseReply;
      if err.Some? {
        return false;
      }
      if |data| >= 1 {
        if len == 0 && MAX_BUF != 0 && avail > MAX_BUF {
          buf, pos := [], 0;
        }
        assert buf[pos..] + data == (buf + data)[pos..];
        buf := buf + data;
        len := |buf|;
      }
      return true;
    }

    lemma {:induction false} MoreWhenEmpty()
      requires Valid() && err.None? && len == 0
      ensures ParseReply(Pending(), 0) == More
    {
      if ridx >= 0 {
        assert Whole(pre, []) == Resume(frames, rstack[ridx].kind, []);
      }
    }

    lemma {:induction false} DoneWhenFinished()
      requires Finished()
      ensures ParseReply(Pending(), 0) == Done(root, Unread())
    {
      assert Whole(pre, Unread()) == Done(root, Unread());
    }

    /** The first task of a reply; its objects are new. */
    method StartReply()
      requires Valid() && err.None? && ridx == -1
      modifies this`ridx, this`objs, this`frames, rstack
      ensures Running() && ridx == 0 && Pending() == old(Pending())
    {
      rstack[0] := Task(None, -1, -1, None, None);
      ridx := 0;
      TracksStart();
      objs, frames := [], [];
    }

    /** The next reply, decided by the grammar on the pending bytes alone. */
    method GetReply() returns (ok: bool, out: Option<seq<Node>>)
      requires Valid()
      modifies this, rstack
      ensures Valid() && (ok <==> err == None)
      ensures old(err).Some? ==> err == old(err) && out == None
      ensures old(err).None? ==>
        match ParseReply(old(Pending()), 0)
        case Done(v, rest) => ok && out == Some(Layout(v, 0)) && BufferOk() && Pending() == rest
        case More => ok && out == None && BufferOk() && Pending() == old(Pending())
        case Bad(e) => err == Some(e) && out == None
    {
      hide ParseReply, Tracks, Completes, Fails, StackOk, Picture, Layout;
      out := None;
      if err.Some? {
        return false, None;
      }
      if len == 0 {
        MoreWhenEmpty();
        return true, None;
      }
      if ridx == -1 {
        StartReply();
      }
      ghost var was := Pending();
      var more := true;
      while ridx >= 0 && more
        invariant BufferOk() || err.Some?
        invariant if more then err.None? && Pending() == was && (if ridx == -1 then Finished() else Running())
                  else Stepped(false, was, buf, pos)
        invariant more && ridx >= 0 ==> !(ridx == 8 && rstack[8].kind == Some(ArrayKind))
        decreases more, len - pos
      {
        more := ProcessItem();
      }
      if err.Some? {
        FailsAlone(was, err.value);
        return false, None;
      }
      if pos >= DISCARD_AT {
        SdsRangeDrops(buf, pos);
        buf := SdsRange(buf, pos, -1);
        pos := 0;
        len := |buf|;
      }
      if ridx == -1 {
        DoneWhenFinished();
        out := Some(objs);
        reply := None;
        pre := [];
      }
      ok := true;
    }
  }

  lemma {:induction false} StackOkTyped(stack: seq<Task>, frames: seq<Frame>, kind: Option<Kind>)
    requires StackOk(stack, frames)
    ensures StackOk(stack[|frames| := stack[|frames|].(kind := kind)], frames)
  {
    var stack' := stack[|frames| := stack[|frames|].(kind := kind)];
    forall k | 0 <= k < |frames| ensures Level(stack', frames, k) {
      assert Level(stack, frames, k);
    }
  }

  lemma {:induction false} FailsAlone(was: seq<Byte>, e: ProtocolError)
    requires Fails(was, e)
    ensures ParseReply(was, 0) == Bad(e)
  {
    assert Whole(was, []) == Bad(e) && was + [] == was;
  }

  lemma {:induction false} FailsExtends(pre: seq<Byte>, u: seq<Byte>, e: ProtocolError)
    requires Fails(pre, e)
    ensures Fails(pre + u, e)
  {
    forall t: seq<Byte> ensures Whole(pre + u, t) == Bad(e) {
      assert pre + u + t == pre + (u + t);
      assert Whole(pre, u + t) == Bad(e);
    }
  }

  lemma {:induction false} PictureNothing()
    ensures Picture([], true) == [] && Picture([], false) == []
  {
  }

  lemma {:induction false} TooDeepFails(pre: seq<Byte>, frames: seq<Frame>, u: seq<Byte>)
    requires Tracks(pre, frames, Some(ArrayKind)) && |frames| == MAX_DEPTH
    ensures Fails(pre + u, TooDeep)
  {
    forall t: seq<Byte> ensures Whole(pre + u, t) == Bad(TooDeep) {
      assert pre + u + t == pre + (u + t);
      assert Whole(pre, u + t) == Resume(frames, Some(ArrayKind), u + t);
    }
  }

  lemma {:induction false} PictureOpened(frames: seq<Frame>, n: nat)
    requires OpenFrames(frames) && n > 0
    ensures Picture(frames + [Frame(n, [])], false) == Picture(frames, true) + [ArrayNode(n, Blank(n))]
  {
    assert (frames + [Frame(n, [])])[..|frames|] == frames;
    assert Slots(Frame(n, []), |Picture(frames, true)| + 1, false) == Blank(n);
  }

  lemma {:induction false} NilItemParses(u: seq<Byte>, i: nat, depth: nat)
    requires FindCRLF(u) == Some(i) && NumberOf(u[..i]) < 0
    ensures i + 2 <= |u| && ParseTyped(StringKind, u[..i + 2], depth) == Done(Nil, [])
  {
    FindCRLFIn(u, i);
    assert u[..i + 2][..i] == u[..i] && u[..i + 2][i + 2..] == [];
  }

  lemma {:induction false} BulkItemParses(u: seq<Byte>, i: nat, n: nat, depth: nat)
    requires FindCRLF(u) == Some(i) && NumberOf(u[..i]) == n && i + n + 4 <= |u|
    ensures ParseTyped(StringKind, u[..i + n + 4], depth) == Done(Str(u[i + 2..i + 2 + n]), [])
  {
    FindCRLFIn(u, i);
    var c := u[..i + n + 4];
    FindCRLFExtends(u[..i + 2], c[i + 2..]);
    assert c == u[..i + 2] + c[i + 2..];
    assert c[..i] == u[..i] && c[i + 2..][..n] == u[i + 2..i + 2 + n] && c[i + 2..][n + 2..] == [];
  }

  lemma {:induction false} EmptyArrayParses(u: seq<Byte>, i: nat, depth: nat)
    requires FindCRLF(u) == Some(i) && NumberOf(u[..i]) <= 0 && depth < MAX_DEPTH
    ensures i + 2 <= |u|
    ensures var n := NumberOf(u[..i]);
            ParseTyped(ArrayKind, u[..i + 2], depth) == Done(if n == -1 then Nil else Array(n, []), [])
  {
    FindCRLFIn(u, i);
    assert u[..i + 2][..i] == u[..i] && u[..i + 2][i + 2..] == [];
  }

  predicate IsLineKind(k: Kind) {
    k.ErrorKind? || k.StatusKind? || k.IntegerKind?
  }

  ghost function LineValue(k: Kind, text: seq<Byte>): Reply
    requires IsLineKind(k)
  {
    match k
    case ErrorKind => Error(text)
    case StatusKind => Status(text)
    case IntegerKind => Integer(NumberOf(text))
  }

  lemma {:induction false} LineItemParses(k: Kind, u: seq<Byte>, i: nat, depth: nat)
    requires FindCRLF(u) == Some(i) && IsLineKind(k)
    ensures i + 2 <= |u| && ParseTyped(k, u[..i + 2], depth) == Done(LineValue(k, u[..i]), [])
  {
    FindCRLFIn(u, i);
    assert u[..i + 2][..i] == u[..i] && u[..i + 2][i + 2..] == [];
  }
}
