/**
 The RESP reply grammar as recursive descent, independent of the reader's task stack:
 what a byte string denotes, that more bytes never change a verdict, and that every
 reply value parses back from its encoding exactly when it nests at most eight arrays.
 */
module RespGrammar {
  import opened Common
  import opened Bytes

  datatype Kind = ErrorKind | StatusKind | IntegerKind | StringKind | ArrayKind

  /** `count` is the announced element count; it is negative only for counts below -1,
      for which no element is read. */
  datatype Reply =
    | Error(text: seq<Byte>)
    | Status(text: seq<Byte>)
    | Integer(n: int)
    | Str(text: seq<Byte>)
    | Nil
    | Array(count: int, elements: seq<Reply>)

  datatype ProtocolError = BadTypeByte(b: Byte) | TooDeep

  datatype Parsed<+T> = Done(value: T, rest: seq<Byte>) | More | Bad(error: ProtocolError)

  const MAX_DEPTH: nat := 8

  function KindOf(b: Byte): Option<Kind> {
    if b == 45 then Some(ErrorKind)
    else if b == 43 then Some(StatusKind)
    else if b == 58 then Some(IntegerKind)
    else if b == 36 then Some(StringKind)
    else if b == 42 then Some(ArrayKind)
    else None
  }

  /** One reply that sits inside `depth` arrays. */
  function ParseReply(s: seq<Byte>, depth: nat): (p: Parsed<Reply>)
    ensures p.Done? ==> |p.rest| < |s|
    decreases |s|, 1
  {
    if s == [] then More
    else match KindOf(s[0])
      case None => Bad(BadTypeByte(s[0]))
      case Some(k) => ParseTyped(k, s[1..], depth)
  }

  /** One reply whose type byte has been read. */
  function ParseTyped(k: Kind, s: seq<Byte>, depth: nat): (p: Parsed<Reply>)
    ensures p.Done? ==> |p.rest| < |s|
    decreases |s|, 0
  {
    if k.ArrayKind? && depth >= MAX_DEPTH then Bad(TooDeep)
    else match FindCRLF(s)
      case None => More
      case Some(i) =>
        var line, rest := s[..i], s[i + 2..];
        match k
        case ErrorKind => Done(Error(line), rest)
        case StatusKind => Done(Status(line), rest)
        case IntegerKind => Done(Integer(NumberOf(line)), rest)
        case StringKind =>
          var n := NumberOf(line);
          if n < 0 then Done(Nil, rest)
          else if |rest| < n + 2 then More
          else Done(Str(rest[..n]), rest[n + 2..])
        case ArrayKind =>
          var n := NumberOf(line);
          if n == -1 then Done(Nil, rest)
          else if n <= 0 then Done(Array(n, []), rest)
          else match ParseMany(rest, n, depth + 1)
            case Done(es, rest') => Done(Array(n, es), rest')
            case More => More
            case Bad(e) => Bad(e)
  }

  /** `n` replies in a row. */
  function ParseMany(s: seq<Byte>, n: nat, depth: nat): (p: Parsed<seq<Reply>>)
    ensures p.Done? ==> |p.rest| <= |s| && |p.value| == n
    decreases |s|, 2
  {
    if n == 0 then Done([], s)
    else match ParseReply(s, depth)
      case More => More
      case Bad(e) => Bad(e)
      case Done(v, rest) =>
        match ParseMany(rest, n - 1, depth)
        case More => More
        case Bad(e) => Bad(e)
        case Done(vs, rest') => Done([v] + vs, rest')
  }

  /** A parse result after `t` more bytes have arrived. */
  function Extend<T>(p: Parsed<T>, t: seq<Byte>): Parsed<T> {
    if p.Done? then Done(p.value, p.rest + t) else p
  }

  // A verdict, once reached, never depends on later bytes.

  lemma {:induction false} ParseReplyExtends(s: seq<Byte>, depth: nat, t: seq<Byte>)
    requires !ParseReply(s, depth).More?
    ensures ParseReply(s + t, depth) == Extend(ParseReply(s, depth), t)
    decreases |s|, 1
  {
    assert (s + t)[1..] == s[1..] + t;
    if KindOf(s[0]).Some? {
      ParseTypedExtends(KindOf(s[0]).value, s[1..], depth, t);
    }
  }

  lemma {:induction false} ParseTypedExtends(k: Kind, s: seq<Byte>, depth: nat, t: seq<Byte>)
    requires !ParseTyped(k, s, depth).More?
    ensures ParseTyped(k, s + t, depth) == Extend(ParseTyped(k, s, depth), t)
    decreases |s|, 0
  {
    hide NumberOf;
    if !(k.ArrayKind? && depth >= MAX_DEPTH) {
      FindCRLFExtends(s, t);
      var i := FindCRLF(s).value;
      var line, rest := s[..i], s[i + 2..];
      assert (s + t)[..i] == line && (s + t)[i + 2..] == rest + t;
      var n := NumberOf(line);
      if k.StringKind? && n >= 0 {
        assert (rest + t)[..n] == rest[..n] && (rest + t)[n + 2..] == rest[n + 2..] + t;
      } else if k.ArrayKind? && n > 0 {
        ParseManyExtends(rest, n, depth + 1, t);
      }
    }
  }

  lemma {:induction false} ParseManyExtends(s: seq<Byte>, n: nat, depth: nat, t: seq<Byte>)
    requires !ParseMany(s, n, depth).More?
    ensures ParseMany(s + t, n, depth) == Extend(ParseMany(s, n, depth), t)
    decreases |s|, 2
  {
    if n > 0 {
      ParseReplyExtends(s, depth, t);
      if ParseReply(s, depth).Done? {
        ParseManyExtends(ParseReply(s, depth).rest, n - 1, depth, t);
      }
    }
  }

  // Whole streams.

  datatype Ending = Open | Failed(error: ProtocolError)
  datatype Stream = Stream(replies: seq<Reply>, ending: Ending)

  /** All replies a byte string holds, and whether it ends in a protocol error. */
  function Replies(s: seq<Byte>): Stream
    decreases |s|
  {
    match ParseReply(s, 0)
    case More => Stream([], Open)
    case Bad(e) => Stream([], Failed(e))
    case Done(v, rest) => Prepend([v], Replies(rest))
  }

  function Prepend(vs: seq<Reply>, st: Stream): Stream {
    Stream(vs + st.replies, st.ending)
  }

  // Encoding.

  function Encode(v: Reply): seq<Byte>
    decreases v, 0
  {
    match v
    case Error(text) => [45] + text + CRLF
    case Status(text) => [43] + text + CRLF
    case Integer(n) => [58] + DecInt(n) + CRLF
    case Str(text) => [36] + DecInt(|text|) + CRLF + text + CRLF
    case Nil => [36] + DecInt(-1) + CRLF
    case Array(count, elements) => [42] + DecInt(count) + CRLF + EncodeMany(elements)
  }

  function EncodeMany(vs: seq<Reply>): seq<Byte>
    decreases vs, 1
  {
    if vs == [] then [] else Encode(vs[0]) + EncodeMany(vs[1..])
  }

  /** How many arrays the value nests. */
  function Nesting(v: Reply): nat
    decreases v, 0
  {
    if v.Array? then 1 + NestingMany(v.elements) else 0
  }

  function NestingMany(vs: seq<Reply>): nat
    decreases vs, 1
  {
    if vs == [] then 0
    else
      var a, b := Nesting(vs[0]), NestingMany(vs[1..]);
      if a > b then a else b
  }

  /** The values RESP can carry: line texts hold no CRLF, counts are the element counts. */
  ghost predicate WellFormed(v: Reply)
    decreases v, 0
  {
    match v
    case Error(text) => FindCRLF(text) == None
    case Status(text) => FindCRLF(text) == None
    case Array(count, elements) => count == |elements| && WellFormedAll(elements)
    case _ => true
  }

  ghost predicate WellFormedAll(vs: seq<Reply>)
    decreases vs, 1
  {
    vs == [] || (WellFormed(vs[0]) && WellFormedAll(vs[1..]))
  }

  /** A header line in front of arbitrary bytes. */
  lemma {:induction false} HeaderLine(b: Byte, line: seq<Byte>, t: seq<Byte>)
    requires FindCRLF(line) == None
    ensures var s := [b] + line + CRLF + t;
            && FindCRLF(s[1..]) == Some(|line|)
            && s[1..][..|line|] == line && s[1..][|line| + 2..] == t
  {
    hide FindCRLF;
    var w := line + CRLF + t;
    assert [b] + line + CRLF + t == [b] + w;
    assert ([b] + w)[1..] == w;
    FindCRLFAfter(line, t);
    assert w == line + (CRLF + t);
    assert w[..|line|] == line;
    assert w[|line| + 2..] == t;
  }

  /**
   Parsing inverts encoding, with `t` left over, exactly up to the nesting limit;
   a deeper value is refused whatever follows it.
   */
  lemma {:induction false} EncodeParses(v: Reply, depth: nat, t: seq<Byte>)
    requires WellFormed(v) && depth <= MAX_DEPTH
    ensures ParseReply(Encode(v) + t, depth)
         == if depth + Nesting(v) <= MAX_DEPTH then Done(v, t) else Bad(TooDeep)
    decreases v, 0
  {
    hide FindCRLF, DecInt, NumberOf;
    match v
    case Str(text) => StrParses(text, depth, t);
    case Array(count, elements) =>
      var body := EncodeMany(elements) + t;
      HeaderNumber(42, count, body);
      assert Encode(v) + t == [42] + DecInt(count) + CRLF + body;
      if depth < MAX_DEPTH {
        EncodeManyParses(elements, depth + 1, t);
      }
    case _ => LineReplyParses(v, depth, t);
  }

  lemma {:induction false} LineReplyParses(v: Reply, depth: nat, t: seq<Byte>)
    requires WellFormed(v) && (v.Error? || v.Status? || v.Integer? || v.Nil?)
    ensures ParseReply(Encode(v) + t, depth) == Done(v, t)
  {
    hide FindCRLF, DecInt, NumberOf;
    match v
    case Error(text) => HeaderLine(45, text, t);
    case Status(text) => HeaderLine(43, text, t);
    case Integer(n) => HeaderNumber(58, n, t);
    case Nil => HeaderNumber(36, -1, t);
  }

  lemma {:induction false} StrParses(text: seq<Byte>, depth: nat, t: seq<Byte>)
    ensures ParseReply(Encode(Str(text)) + t, depth) == Done(Str(text), t)
  {
    hide FindCRLF, DecInt, NumberOf;
    var body := text + CRLF + t;
    HeaderNumber(36, |text|, body);
    assert Encode(Str(text)) + t == [36] + DecInt(|text|) + CRLF + body;
    assert body[..|text|] == text && body[|text| + 2..] == t;
  }

  lemma {:induction false} HeaderNumber(b: Byte, n: int, t: seq<Byte>)
    ensures var s := [b] + DecInt(n) + CRLF + t;
            && FindCRLF(s[1..]) == Some(|DecInt(n)|)
            && NumberOf(s[1..][..|DecInt(n)|]) == n
            && s[1..][|DecInt(n)| + 2..] == t
  {
    hide FindCRLF, DecInt, NumberOf;
    DecIntIsOneLine(n);
    HeaderLine(b, DecInt(n), t);
    NumberOfDecInt(n);
  }

  lemma {:induction false} EncodeManyParses(vs: seq<Reply>, depth: nat, t: seq<Byte>)
    requires WellFormedAll(vs) && depth <= MAX_DEPTH
    ensures ParseMany(EncodeMany(vs) + t, |vs|, depth)
         == if depth + NestingMany(vs) <= MAX_DEPTH then Done(vs, t) else Bad(TooDeep)
    decreases vs, 1
  {
    if vs == [] {
      assert EncodeMany(vs) + t == t;
    } else {
      assert EncodeMany(vs) + t == Encode(vs[0]) + (EncodeMany(vs[1..]) + t);
      EncodeParses(vs[0], depth, EncodeMany(vs[1..]) + t);
      EncodeManyParses(vs[1..], depth, t);
      assert [vs[0]] + vs[1..] == vs;
    }
  }

  /** No proper prefix of a value's bytes is a reply or an error: the reader waits for the last byte. */
  lemma {:induction false} PrefixNeedsMore(v: Reply, depth: nat, n: nat)
    requires WellFormed(v) && depth + Nesting(v) <= MAX_DEPTH && n < |Encode(v)|
    ensures ParseReply(Encode(v)[..n], depth) == More
  {
    hide Encode, ParseReply;
    var s, t := Encode(v)[..n], Encode(v)[n..];
    assert s + t == Encode(v) && Encode(v) + [] == Encode(v);
    EncodeParses(v, depth, []);
    if !ParseReply(s, depth).More? {
      ParseReplyExtends(s, depth, t);
    }
  }

  /** Any other first byte is an error that names it. */
  lemma {:induction false} UnknownType(b: Byte, s: seq<Byte>, depth: nat)
    requires b !in {43, 45, 58, 36, 42}
    ensures ParseReply([b] + s, depth) == Bad(BadTypeByte(b))
  {
  }

  /** Every negative length of a string is nil. A negative count of an array is nil only if it is -1;
      otherwise it is kept, with no elements. */
  lemma {:induction false} NegativeLength(n: int, t: seq<Byte>, depth: nat)
    requires n < 0 && depth < MAX_DEPTH
    ensures ParseReply([36] + DecInt(n) + CRLF + t, depth) == Done(Nil, t)
    ensures ParseReply([42] + DecInt(n) + CRLF + t, depth) == Done(if n == -1 then Nil else Array(n, []), t)
  {
    hide NumberOf, FindCRLF;
    HeaderNumber(36, n, t);
    HeaderNumber(42, n, t);
  }

  /** The two bytes after a string are skipped, whatever they are. */
  lemma {:induction false} AnyTerminator(text: seq<Byte>, x: Byte, y: Byte, t: seq<Byte>, depth: nat)
    ensures ParseReply([36] + DecInt(|text|) + CRLF + (text + ([x, y] + t)), depth) == Done(Str(text), t)
  {
    hide NumberOf, FindCRLF;
    var rest := text + ([x, y] + t);
    HeaderNumber(36, |text|, rest);
    assert rest[..|text|] == text && rest[|text| + 2..] == t;
  }
}
