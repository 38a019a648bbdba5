/**
 What the reader's explicit task stack stands for: the rest of a recursive-descent parse
 (`Resume`), and the reply objects built so far (`Picture`).
 */
module RespStack {
  import opened Common
  import opened Bytes
  import opened RespGrammar

  /** An array that has been announced and whose first `|done|` elements are complete. */
  datatype Frame = Frame(count: nat, done: seq<Reply>)

  /** The parse that remains when `frames` are open (outermost first) and the next item's
      type byte is `kind`, if it has been read already. */
  function Resume(frames: seq<Frame>, kind: Option<Kind>, s: seq<Byte>): Parsed<Reply> {
    Unwind(frames, match kind
                   case None => ParseReply(s, |frames|)
                   case Some(k) => ParseTyped(k, s, |frames|))
  }

  /** Finish the open arrays, innermost first, once the current item is known. */
  function Unwind(frames: seq<Frame>, p: Parsed<Reply>): Parsed<Reply> {
    if frames == [] || !p.Done? then p
    else
      var top := frames[|frames| - 1];
      if top.count <= |top.done| then More
      else match ParseMany(p.rest, top.count - |top.done| - 1, |frames|)
        case More => More
        case Bad(e) => Bad(e)
        case Done(vs, rest) =>
          Unwind(frames[..|frames| - 1], Done(Array(top.count, top.done + [p.value] + vs), rest))
  }

  ghost predicate OpenFrames(frames: seq<Frame>) {
    forall i :: 0 <= i < |frames| ==> |frames[i].done| < frames[i].count
  }

  /** The frames after the innermost array received `v`. */
  function Deliver(frames: seq<Frame>, v: Reply): seq<Frame>
    requires frames != []
  {
    var top := frames[|frames| - 1];
    frames[|frames| - 1 := Frame(top.count, top.done + [v])]
  }

  /** The innermost array, complete with its last element `v`. */
  function Closed(frames: seq<Frame>, v: Reply): Reply
    requires frames != []
  {
    var top := frames[|frames| - 1];
    Array(top.count, top.done + [v])
  }

  ghost predicate IsLast(frames: seq<Frame>)
    requires frames != []
  {
    |frames[|frames| - 1].done| + 1 == frames[|frames| - 1].count
  }

  /** A delivered element that is not the last one: parsing goes on with the next item. */
  lemma {:induction false} DeliverResumes(frames: seq<Frame>, v: Reply, s: seq<Byte>)
    requires frames != [] && OpenFrames(frames)
    requires !IsLast(frames)
    ensures Unwind(frames, Done(v, s)) == Resume(Deliver(frames, v), None, s)
  {
    var n := |frames| - 1;
    var frames' := Deliver(frames, v);
    var top := frames[n];
    assert frames'[..n] == frames[..n];
    var p := ParseReply(s, n + 1);
    if p.Done? {
      var q := ParseMany(p.rest, top.count - |top.done| - 2, n + 1);
      if q.Done? {
        assert top.done + [v] + ([p.value] + q.value) == (top.done + [v]) + [p.value] + q.value;
      }
    }
  }

  /** A delivered last element: the array itself is the next finished item. */
  lemma {:induction false} DeliverCloses(frames: seq<Frame>, v: Reply, s: seq<Byte>)
    requires frames != [] && OpenFrames(frames)
    requires IsLast(frames)
    ensures Unwind(frames, Done(v, s)) == Unwind(frames[..|frames| - 1], Done(Closed(frames, v), s))
  {
    var top := frames[|frames| - 1];
    assert top.done + [v] + [] == top.done + [v];
  }

  /** Announcing a non-empty array opens a frame. */
  lemma {:induction false} OpenResumes(frames: seq<Frame>, n: nat, header: seq<Byte>, s: seq<Byte>)
    requires |frames| < MAX_DEPTH && n > 0
    requires FindCRLF(header + s) == Some(|header| - 2) && NumberOf((header + s)[..|header| - 2]) == n
    ensures Resume(frames, Some(ArrayKind), header + s) == Resume(frames + [Frame(n, [])], None, s)
  {
    assert (header + s)[|header|..] == s;
    var d := |frames| + 1;
    assert (frames + [Frame(n, [])])[..|frames|] == frames;
    var p := ParseReply(s, d);
    if p.Done? {
      var q := ParseMany(p.rest, n - 1, d);
      if q.Done? {
        assert ParseMany(s, n, d) == Done([p.value] + q.value, q.rest);
        assert [] + [p.value] + q.value == [p.value] + q.value;
      } else {
        assert !ParseMany(s, n, d).Done?;
      }
    } else {
      assert !ParseMany(s, n, d).Done?;
    }
  }

  /** The verdict on the current reply when `t` follows the consumed bytes `pre`. */
  ghost function Whole(pre: seq<Byte>, t: seq<Byte>): Parsed<Reply> {
    ParseReply(pre + t, 0)
  }

  /** `pre` is exactly what has been consumed of the current reply. */
  ghost predicate Tracks(pre: seq<Byte>, frames: seq<Frame>, kind: Option<Kind>) {
    forall t: seq<Byte> :: Whole(pre, t) == Resume(frames, kind, t)
  }

  /** `pre` is a whole reply that denotes `v`. */
  ghost predicate Completes(pre: seq<Byte>, v: Reply) {
    forall t: seq<Byte> :: Whole(pre, t) == Done(v, t)
  }

  /** `pre` fails with `e`, whatever follows. */
  ghost predicate Fails(pre: seq<Byte>, e: ProtocolError) {
    forall t: seq<Byte> :: Whole(pre, t) == Bad(e)
  }

  /** Every continuation of `pre` is `Unwind`ing with `v` as the finished item. */
  ghost predicate Unwinds(pre: seq<Byte>, frames: seq<Frame>, v: Reply) {
    forall t: seq<Byte> :: Whole(pre, t) == Unwind(frames, Done(v, t))
  }

  lemma {:induction false} TracksStart()
    ensures Tracks([], [], None)
  {
    forall t: seq<Byte> ensures Whole([], t) == Resume([], None, t) {
      assert [] + t == t;
    }
  }

  lemma {:induction false} TracksType(pre: seq<Byte>, frames: seq<Frame>, b: Byte)
    requires Tracks(pre, frames, None)
    ensures KindOf(b).Some? ==> Tracks(pre + [b], frames, KindOf(b))
    ensures KindOf(b).None? ==> Fails(pre + [b], BadTypeByte(b))
  {
    forall t: seq<Byte>
      ensures KindOf(b).Some? ==> Whole(pre + [b], t) == Resume(frames, KindOf(b), t)
      ensures KindOf(b).None? ==> Whole(pre + [b], t) == Bad(BadTypeByte(b))
    {
      assert pre + [b] + t == pre + ([b] + t);
      assert ([b] + t)[1..] == t;
      assert Whole(pre, [b] + t) == Resume(frames, None, [b] + t);
    }
  }

  /** A complete item `c`, alone, denotes `v`; so it does in front of anything. */
  lemma {:induction false} TracksItem(pre: seq<Byte>, frames: seq<Frame>, k: Kind, s: seq<Byte>, c: nat, v: Reply)
    requires Tracks(pre, frames, Some(k)) && c <= |s|
    requires ParseTyped(k, s[..c], |frames|) == Done(v, [])
    ensures Unwinds(pre + s[..c], frames, v)
  {
    forall t: seq<Byte>
      ensures Whole(pre + s[..c], t) == Unwind(frames, Done(v, t))
    {
      assert pre + s[..c] + t == pre + (s[..c] + t);
      assert Whole(pre, s[..c] + t) == Resume(frames, Some(k), s[..c] + t);
      ParseTypedExtends(k, s[..c], |frames|, t);
      assert [] + t == t;
    }
  }

  /** An announced array. */
  lemma {:induction false} TracksOpen(pre: seq<Byte>, frames: seq<Frame>, s: seq<Byte>, i: nat, n: nat)
    requires Tracks(pre, frames, Some(ArrayKind)) && |frames| < MAX_DEPTH
    requires FindCRLF(s) == Some(i) && NumberOf(s[..i]) == n && n > 0
    ensures Tracks(pre + s[..i + 2], frames + [Frame(n, [])], None)
  {
    var header := s[..i + 2];
    FindCRLFIn(s, i);
    forall t: seq<Byte>
      ensures Whole(pre + header, t) == Resume(frames + [Frame(n, [])], None, t)
    {
      assert pre + header + t == pre + (header + t);
      FindCRLFExtends(header, t);
      assert (header + t)[..i] == s[..i];
      OpenResumes(frames, n, header, t);
    }
  }

  /** A line is found in the bytes up to and including its CRLF. */
  lemma {:induction false} FindCRLFIn(s: seq<Byte>, i: nat)
    requires FindCRLF(s) == Some(i)
    ensures i + 2 <= |s| && FindCRLF(s[..i + 2]) == Some(i)
  {
    if i > 0 {
      FindCRLFIn(s[1..], i - 1);
      assert s[1..][..i + 1] == s[..i + 2][1..];
    }
  }

  lemma {:induction false} UnwindsCloses(pre: seq<Byte>, frames: seq<Frame>, v: Reply)
    requires Unwinds(pre, frames, v) && frames != [] && OpenFrames(frames) && IsLast(frames)
    ensures Unwinds(pre, frames[..|frames| - 1], Closed(frames, v))
  {
    forall t: seq<Byte>
      ensures Whole(pre, t) == Unwind(frames[..|frames| - 1], Done(Closed(frames, v), t))
    {
      DeliverCloses(frames, v, t);
    }
  }

  lemma {:induction false} UnwindsCompletes(pre: seq<Byte>, v: Reply)
    requires Unwinds(pre, [], v)
    ensures Completes(pre, v)
  {
    forall t: seq<Byte> ensures Whole(pre, t) == Done(v, t) {
      assert Whole(pre, t) == Unwind([], Done(v, t));
    }
  }

  lemma {:induction false} UnwindsResumes(pre: seq<Byte>, frames: seq<Frame>, v: Reply)
    requires Unwinds(pre, frames, v) && frames != [] && OpenFrames(frames) && !IsLast(frames)
    ensures Tracks(pre, Deliver(frames, v), None)
  {
    forall t: seq<Byte> ensures Whole(pre, t) == Resume(Deliver(frames, v), None, t) {
      DeliverResumes(frames, v, t);
    }
  }

  // ---------- Reply objects ----------

  /** A reply object. Pointers to other reply objects are positions in allocation order. */
  datatype Node =
    | TextNode(kind: Kind, str: seq<Byte>)
    | IntegerNode(integer: int)
    | NilNode
    | ArrayNode(elements: int, element: seq<Option<nat>>)

  /** The objects of a finished reply, allocated from address `base` on. */
  function Layout(v: Reply, base: nat): (ns: seq<Node>)
    ensures |ns| > 0
    decreases v, 0
  {
    match v
    case Error(text) => [TextNode(ErrorKind, text)]
    case Status(text) => [TextNode(StatusKind, text)]
    case Str(text) => [TextNode(StringKind, text)]
    case Integer(n) => [IntegerNode(n)]
    case Nil => [NilNode]
    case Array(count, elements) =>
      [ArrayNode(count, Roots(elements, base + 1))] + LayoutMany(elements, base + 1)
  }

  function LayoutMany(vs: seq<Reply>, base: nat): seq<Node>
    decreases vs, 1
  {
    if vs == [] then []
    else
      var front := LayoutMany(vs[..|vs| - 1], base);
      front + Layout(vs[|vs| - 1], base + |front|)
  }

  /** The addresses of the elements. */
  function Roots(vs: seq<Reply>, base: nat): (rs: seq<Option<nat>>)
    ensures |rs| == |vs|
    decreases vs, 2
  {
    if vs == [] then []
    else Roots(vs[..|vs| - 1], base) + [Some(base + |LayoutMany(vs[..|vs| - 1], base)|)]
  }

  function Blank(n: nat): (s: seq<Option<nat>>)
    ensures |s| == n
  {
    seq(n, _ => None)
  }

  /** The element slots of an open array whose elements start at `base`; when `pending`, the
      object of the element under construction is already hooked in. */
  function Slots(f: Frame, base: nat, pending: bool): seq<Option<nat>>
    requires |f.done| < f.count
  {
    if pending
    then Roots(f.done, base) + [Some(base + |LayoutMany(f.done, base)|)] + Blank(f.count - |f.done| - 1)
    else Roots(f.done, base) + Blank(f.count - |f.done|)
  }

  /** All objects allocated while `frames` are open. */
  function Picture(frames: seq<Frame>, pending: bool): seq<Node>
    requires OpenFrames(frames)
  {
    if frames == [] then []
    else
      var n := |frames| - 1;
      var below := Picture(frames[..n], true);
      below + [ArrayNode(frames[n].count, Slots(frames[n], |below| + 1, pending))]
            + LayoutMany(frames[n].done, |below| + 1)
  }

  /** Address of the object of the `k`-th open array. */
  function Address(frames: seq<Frame>, k: nat): nat
    requires k <= |frames| && OpenFrames(frames)
  {
    |Picture(frames[..k], true)|
  }

  /** Writing the new object's address into its parent's free slot. */
  lemma {:induction false} HookIn(frames: seq<Frame>)
    requires frames != [] && OpenFrames(frames)
    ensures var n := |frames| - 1; var p := Picture(frames, false); var a := Address(frames, n);
            && a < |p| && p[a].ArrayNode?
            && |p[a].element| == frames[n].count
            && p[a].element[|frames[n].done|] == None
            && Picture(frames, true)
            == p[a := ArrayNode(p[a].elements, p[a].element[|frames[n].done| := Some(|p|)])]
  {
    var n := |frames| - 1;
    var below := Picture(frames[..n], true);
    var f := frames[n];
    var base := |below| + 1;
    var k := |f.done|;
    assert Slots(f, base, true) == Slots(f, base, false)[k := Some(base + |LayoutMany(f.done, base)|)];
    var p := Picture(frames, false);
    assert p[|below|] == ArrayNode(f.count, Slots(f, base, false));
  }

  /** Laying out one more element. */
  lemma {:induction false} LayoutAppend(vs: seq<Reply>, v: Reply, base: nat)
    ensures LayoutMany(vs + [v], base) == LayoutMany(vs, base) + Layout(v, base + |LayoutMany(vs, base)|)
    ensures Roots(vs + [v], base) == Roots(vs, base) + [Some(base + |LayoutMany(vs, base)|)]
  {
    assert (vs + [v])[..|vs|] == vs;
  }

  /** The objects of a finished item `v` on top of open frames: `v` is one more element ... */
  lemma {:induction false} PictureDelivered(frames: seq<Frame>, v: Reply)
    requires frames != [] && OpenFrames(frames) && !IsLast(frames)
    ensures OpenFrames(Deliver(frames, v))
    ensures var p := Picture(frames, true); p + Layout(v, |p|) == Picture(Deliver(frames, v), false)
  {
    var n := |frames| - 1;
    var base := |Picture(frames[..n], true)| + 1;
    LayoutAppend(frames[n].done, v, base);
    assert Deliver(frames, v)[..n] == frames[..n];
    assert Slots(frames[n], base, true) == Slots(Deliver(frames, v)[n], base, false);
  }

  /** ... or the last one, which makes the array the finished item. */
  lemma {:induction false} PictureClosed(frames: seq<Frame>, v: Reply)
    requires frames != [] && OpenFrames(frames) && IsLast(frames)
    ensures var p, q := Picture(frames, true), Picture(frames[..|frames| - 1], true);
            p + Layout(v, |p|) == q + Layout(Closed(frames, v), |q|)
  {
    var n := |frames| - 1;
    var below := Picture(frames[..n], true);
    var base := |below| + 1;
    var done := frames[n].done;
    LayoutAppend(done, v, base);
    assert Slots(frames[n], base, true) == Roots(done + [v], base);
    var head := [ArrayNode(frames[n].count, Roots(done + [v], base))];
    var front := LayoutMany(done, base);
    var last := Layout(v, base + |front|);
    assert Picture(frames, true) == below + head + front;
    assert Layout(Closed(frames, v), |below|) == head + (front + last);
    Regroup(below, head, front, last);
  }

  lemma {:induction false} Regroup<T>(a: seq<T>, b: seq<T>, c: seq<T>, d: seq<T>)
    ensures a + b + c + d == a + (b + (c + d))
  {
  }

  lemma {:induction false} SplitSlice<T>(s: seq<T>, i: nat, a: seq<T>, b: seq<T>)
    requires i + |a| + |b| <= |s| && s[i..i + |a| + |b|] == a + b
    ensures s[i..i + |a|] == a && s[i + |a|..i + |a| + |b|] == b
  {
    var w := s[i..i + |a| + |b|];
    assert s[i..i + |a|] == w[..|a|] == (a + b)[..|a|];
    assert s[i + |a|..i + |a| + |b|] == w[|a|..] == (a + b)[|a|..];
  }

  // ---------- Reading a reply back from its objects ----------

  /** Follow the pointers from address `i`; None for a dangling or empty slot. */
  function Tree(objs: seq<Node>, i: nat): Option<Reply>
    decreases |objs| - i, 0
  {
    if i >= |objs| then None
    else match objs[i]
      case TextNode(ErrorKind, str) => Some(Error(str))
      case TextNode(StatusKind, str) => Some(Status(str))
      case TextNode(StringKind, str) => Some(Str(str))
      case TextNode(_, _) => None
      case IntegerNode(n) => Some(Integer(n))
      case NilNode => Some(Nil)
      case ArrayNode(count, element) =>
        match Trees(objs, i, element)
        case None => None
        case Some(vs) => Some(Array(count, vs))
  }

  function Trees(objs: seq<Node>, i: nat, ps: seq<Option<nat>>): Option<seq<Reply>>
    requires i < |objs|
    decreases |objs| - i, 0, |ps|
  {
    if ps == [] then Some([])
    else
      var n := |ps| - 1;
      if ps[n].None? || ps[n].value <= i then None
      else match (Trees(objs, i, ps[..n]), Tree(objs, ps[n].value))
        case (Some(vs), Some(v)) => Some(vs + [v])
        case _ => None
  }

  /** `Layout` is the pointer form of the value: reading it back gives the value. */
  lemma {:induction false} TreeOfLayout(objs: seq<Node>, v: Reply, i: nat)
    requires i + |Layout(v, i)| <= |objs| && objs[i..i + |Layout(v, i)|] == Layout(v, i)
    ensures Tree(objs, i) == Some(v)
    decreases v, 0
  {
    assert objs[i] == Layout(v, i)[0];
    if v.Array? {
      var body := LayoutMany(v.elements, i + 1);
      assert objs[i + 1..i + 1 + |body|] == Layout(v, i)[1..] == body;
      TreesOfLayout(objs, i, v.elements, i + 1);
    }
  }

  lemma {:induction false} TreesOfLayout(objs: seq<Node>, i: nat, vs: seq<Reply>, base: nat)
    requires i < base && i < |objs|
    requires base + |LayoutMany(vs, base)| <= |objs|
    requires objs[base..base + |LayoutMany(vs, base)|] == LayoutMany(vs, base)
    ensures Trees(objs, i, Roots(vs, base)) == Some(vs)
    decreases vs, 1
  {
    hide Layout, Tree;
    if vs != [] {
      var n := |vs| - 1;
      var front := LayoutMany(vs[..n], base);
      var mid := base + |front|;
      SplitSlice(objs, base, front, Layout(vs[n], mid));
      TreesOfLayout(objs, i, vs[..n], base);
      TreeOfLayout(objs, vs[n], mid);
      assert Roots(vs, base)[..n] == Roots(vs[..n], base);
      assert vs[..n] + [vs[n]] == vs;
    }
  }
}
