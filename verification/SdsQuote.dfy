/**
 The quoting printer and the argument-line parser of the sds library, and the round trip
 between them for arbitrary bytes.
 */
module SdsQuote {
  import opened Common
  import opened Bytes

  const QUOTE: Byte := 34
  const BACKSLASH: Byte := 92
  const SPACE: Byte := 32

  predicate IsPrint(b: Byte) {
    32 <= b <= 126
  }

  predicate IsSpace(b: Byte) {
    b == 32 || 9 <= b <= 13
  }

  predicate IsHex(b: Byte) {
    48 <= b <= 57 || 97 <= b <= 102 || 65 <= b <= 70
  }

  function HexValue(b: Byte): nat {
    if 48 <= b <= 57 then b - 48
    else if 97 <= b <= 102 then b - 87
    else if 65 <= b <= 70 then b - 55
    else 0
  }

  function HexDigit(n: nat): Byte
    requires n < 16
  {
    if n < 10 then 48 + n else 87 + n
  }

  // ---------- Printing ----------

  function Escape(b: Byte): (s: seq<Byte>)
    ensures |s| >= 1
  {
    if b == BACKSLASH || b == QUOTE then [BACKSLASH, b]
    else if b == 10 then [BACKSLASH, 110]
    else if b == 13 then [BACKSLASH, 114]
    else if b == 9 then [BACKSLASH, 116]
    else if b == 7 then [BACKSLASH, 97]
    else if b == 8 then [BACKSLASH, 98]
    else if IsPrint(b) then [b]
    else [BACKSLASH, 120, HexDigit(b / 16), HexDigit(b % 16)]
  }

  function EscapeAll(s: seq<Byte>): seq<Byte> {
    if s == [] then [] else Escape(s[0]) + EscapeAll(s[1..])
  }

  function Quoted(s: seq<Byte>): seq<Byte> {
    [QUOTE] + EscapeAll(s) + [QUOTE]
  }

  lemma {:induction false} EscapeAllAppend(s: seq<Byte>, b: Byte)
    ensures EscapeAll(s + [b]) == EscapeAll(s) + Escape(b)
  {
    if s == [] {
      assert s + [b] == [b];
      assert [b][1..] == [];
    } else {
      assert (s + [b])[1..] == s[1..] + [b];
      EscapeAllAppend(s[1..], b);
    }
  }

  /** sdscatrepr: appends the quoted form byte by byte. */
  method CatRepr(s: seq<Byte>, p: seq<Byte>) returns (r: seq<Byte>)
    ensures r == s + Quoted(p)
  {
    hide Escape, EscapeAll;
    r := s + [QUOTE];
    EscapeNothing(p[..0]);
    for i := 0 to |p|
      invariant r == s + [QUOTE] + EscapeAll(p[..i])
    {
      EscapeAllAppend(p[..i], p[i]);
      assert p[..i + 1] == p[..i] + [p[i]];
      var piece := EscapeByte(p[i]);
      Regroup(s + [QUOTE], EscapeAll(p[..i]), piece);
      r := r + piece;
    }
    assert p[..|p|] == p;
    r := r + [QUOTE];
  }

  lemma {:induction false} EscapeNothing(p: seq<Byte>)
    requires p == []
    ensures EscapeAll(p) == []
  {
  }

  /** One byte of it. */
  method EscapeByte(b: Byte) returns (piece: seq<Byte>)
    ensures piece == Escape(b)
  {
    if b == BACKSLASH || b == QUOTE {
      piece := [BACKSLASH, b];
    } else if b == 10 {
      piece := [BACKSLASH, 110];
    } else if b == 13 {
      piece := [BACKSLASH, 114];
    } else if b == 9 {
      piece := [BACKSLASH, 116];
    } else if b == 7 {
      piece := [BACKSLASH, 97];
    } else if b == 8 {
      piece := [BACKSLASH, 98];
    } else if IsPrint(b) {
      piece := [b];
    } else {
      piece := [BACKSLASH, 120, HexDigit(b / 16), HexDigit(b % 16)];
    }
  }

  lemma {:induction false} Regroup(a: seq<Byte>, b: seq<Byte>, c: seq<Byte>)
    ensures a + b + c == a + (b + c)
  {
  }

  // ---------- Parsing ----------

  /** The byte at position `i` of a NUL-terminated string. */
  function At(s: seq<Byte>, i: nat): Byte {
    if i < |s| then s[i] else 0
  }

  function Unescape(b: Byte): Byte {
    if b == 110 then 10
    else if b == 114 then 13
    else if b == 116 then 9
    else if b == 98 then 8
    else if b == 97 then 7
    else b
  }

  datatype Mode = Plain | DoubleQuoted | SingleQuoted

  predicate EndsToken(b: Byte) {
    b == 32 || b == 10 || b == 13 || b == 9 || b == 0
  }

  predicate HexEscape(s: seq<Byte>) {
    At(s, 0) == BACKSLASH && At(s, 1) == 120 && IsHex(At(s, 2)) && IsHex(At(s, 3))
  }

  /** One token of which `cur` has been read, and what follows it; None is a syntax error. */
  function Token(s: seq<Byte>, mode: Mode, cur: seq<Byte>): (r: Option<(seq<Byte>, seq<Byte>)>)
    ensures r.Some? ==> |r.value.1| <= |s|
    ensures r.Some? && (mode != Plain || !EndsToken(At(s, 0))) ==> |r.value.1| < |s|
  {
    var c, d := At(s, 0), At(s, 1);
    match mode
    case DoubleQuoted =>
      if HexEscape(s) then Token(s[4..], mode, cur + [HexValue(s[2]) * 16 + HexValue(s[3])])
      else if c == BACKSLASH && d != 0 then Token(s[2..], mode, cur + [Unescape(d)])
      else if c == QUOTE then if d != 0 && !IsSpace(d) then None else Some((cur, s[1..]))
      else if c == 0 then None
      else Token(s[1..], mode, cur + [c])
    case SingleQuoted =>
      if c == BACKSLASH && d == 39 then Token(s[2..], mode, cur + [39])
      else if c == 39 then if d != 0 && !IsSpace(d) then None else Some((cur, s[1..]))
      else if c == 0 then None
      else Token(s[1..], mode, cur + [c])
    case Plain =>
      if c == 0 then Some((cur, s))
      else if EndsToken(c) then Some((cur, s[1..]))
      else if c == QUOTE then Token(s[1..], DoubleQuoted, cur)
      else if c == 39 then Token(s[1..], SingleQuoted, cur)
      else Token(s[1..], Plain, cur + [c])
  }

  /** The arguments of a line; None for unbalanced quotes or a quote closed inside a word. */
  function SplitLine(s: seq<Byte>): Option<seq<seq<Byte>>>
    decreases |s|
  {
    if At(s, 0) == 0 then Some([])
    else if IsSpace(s[0]) then SplitLine(s[1..])
    else match Token(s, Plain, [])
      case None => None
      case Some((token, rest)) =>
        match SplitLine(rest)
        case None => None
        case Some(tokens) => Some([token] + tokens)
  }

  /** sdssplitargs: the token loop, with its two quote flags. */
  method ReadToken(line: seq<Byte>, start: nat) returns (token: Option<seq<Byte>>, p: nat)
    requires start <= |line|
    ensures p <= |line|
    ensures match Token(line[start..], Plain, [])
            case None => token == None
            case Some((t, rest)) => token == Some(t) && line[p..] == rest
  {
    p := start;
    var inq, insq, done := false, false, false;
    var current: seq<Byte> := [];
    while !done
      invariant start <= p <= |line| && !(inq && insq)
      invariant !done ==> Token(line[start..], Plain, []) == Token(line[p..], ModeOf(inq, insq), current)
      invariant done ==> Token(line[start..], Plain, []) == Some((current, line[p..]))
      decreases !done, |line| - p
    {
      ghost var s := line[p..];
      var c, d := At(line, p), At(line, p + 1);
      assert c == At(s, 0) && d == At(s, 1) && At(line, p + 2) == At(s, 2) && At(line, p + 3) == At(s, 3);
      var step := 1;
      if inq {
        if c == BACKSLASH && d == 120 && IsHex(At(line, p + 2)) && IsHex(At(line, p + 3)) {
          current := current + [HexValue(line[p + 2]) * 16 + HexValue(line[p + 3])];
          step := 4;
        } else if c == BACKSLASH && d != 0 {
          current := current + [Unescape(d)];
          step := 2;
        } else if c == QUOTE {
          if d != 0 && !IsSpace(d) {
            return None, p;
          }
          done := true;
        } else if c == 0 {
          return None, p;
        } else {
          current := current + [c];
        }
      } else if insq {
        if c == BACKSLASH && d == 39 {
          current := current + [39];
          step := 2;
        } else if c == 39 {
          if d != 0 && !IsSpace(d) {
            return None, p;
          }
          done := true;
        } else if c == 0 {
          return None, p;
        } else {
          current := current + [c];
        }
      } else if EndsToken(c) {
        done := true;
        if c == 0 {
          step := 0;
        }
      } else if c == QUOTE {
        inq := true;
      } else if c == 39 {
        insq := true;
      } else {
        current := current + [c];
      }
      p := p + step;
      assert s[step..] == line[p..];
    }
    return Some(current), p;
  }

  function ModeOf(inq: bool, insq: bool): Mode {
    if inq then DoubleQuoted else if insq then SingleQuoted else Plain
  }

  /** Tokens found earlier in front of the result for the rest. */
  function Behind(tokens: seq<seq<Byte>>, r: Option<seq<seq<Byte>>>): Option<seq<seq<Byte>>> {
    match r case None => None case Some(ts) => Some(tokens + ts)
  }

  lemma {:induction false} SplitStep(line: seq<Byte>, p: nat, tokens: seq<seq<Byte>>)
    requires p <= |line|
    ensures At(line, p) == 0 ==> Behind(tokens, SplitLine(line[p..])) == Some(tokens)
    ensures At(line, p) != 0 && IsSpace(line[p]) ==> SplitLine(line[p..]) == SplitLine(line[p + 1..])
    ensures At(line, p) != 0 && !IsSpace(line[p]) ==>
      match Token(line[p..], Plain, [])
      case None => SplitLine(line[p..]) == None
      case Some((t, rest)) =>
        && |rest| < |line[p..]|
        && Behind(tokens, SplitLine(line[p..])) == Behind(tokens + [t], SplitLine(rest))
  {
    hide Token;
    var s := line[p..];
    assert At(s, 0) == At(line, p);
    if At(line, p) == 0 {
      assert tokens + [] == tokens;
    } else if IsSpace(line[p]) {
      assert s[1..] == line[p + 1..];
    } else {
      var r := Token(s, Plain, []);
      if r.Some? {
        var ts := SplitLine(r.value.1);
        assert ts.Some? ==> tokens + ([r.value.0] + ts.value) == tokens + [r.value.0] + ts.value;
      }
    }
  }

  /** sdssplitargs */
  method SplitArgs(line: seq<Byte>) returns (vector: Option<seq<seq<Byte>>>)
    ensures vector == SplitLine(line)
  {
    hide SplitLine, Token;
    var p: nat, tokens: seq<seq<Byte>> := 0, [];
    assert line[0..] == line;
    assert Behind([], SplitLine(line)) == SplitLine(line) by {
      assert SplitLine(line).Some? ==> [] + SplitLine(line).value == SplitLine(line).value;
    }
    while true
      invariant p <= |line|
      invariant SplitLine(line) == Behind(tokens, SplitLine(line[p..]))
      decreases |line| - p
    {
      ghost var p0 := p;
      while At(line, p) != 0 && IsSpace(line[p])
        invariant p0 <= p <= |line|
        invariant SplitLine(line) == Behind(tokens, SplitLine(line[p..]))
        decreases |line| - p
      {
        SplitStep(line, p, tokens);
        p := p + 1;
      }
      SplitStep(line, p, tokens);
      if At(line, p) != 0 {
        var token, next := ReadToken(line, p);
        if token.None? {
          return None;
        }
        tokens := tokens + [token.value];
        p := next;
      } else {
        return Some(tokens);
      }
    }
  }

  // ---------- Round trip ----------

  /** The quoted forms of the arguments, separated by spaces. */
  function LineOf(args: seq<seq<Byte>>): seq<Byte> {
    if args == [] then []
    else if |args| == 1 then Quoted(args[0])
    else Quoted(args[0]) + [SPACE] + LineOf(args[1..])
  }

  /** One escaped byte, in front of anything, is read as that byte. */
  lemma {:induction false} TokenEscape(b: Byte, t: seq<Byte>, cur: seq<Byte>)
    ensures Token(Escape(b) + t, DoubleQuoted, cur) == Token(t, DoubleQuoted, cur + [b])
  {
    var s := Escape(b) + t;
    assert s[|Escape(b)|..] == t;
    if |Escape(b)| == 4 {
      assert s[0] == BACKSLASH && s[1] == 120 && s[2] == HexDigit(b / 16) && s[3] == HexDigit(b % 16);
      assert HexValue(s[2]) * 16 + HexValue(s[3]) == b;
      assert HexEscape(s);
    } else {
      assert s[0] == Escape(b)[0] && (|Escape(b)| == 2 ==> s[1] == Escape(b)[1]);
      assert !HexEscape(s);
    }
  }

  lemma {:induction false} TokenQuoted(arg: seq<Byte>, t: seq<Byte>, cur: seq<Byte>)
    requires t == [] || IsSpace(t[0])
    ensures Token(EscapeAll(arg) + [QUOTE] + t, DoubleQuoted, cur) == Some((cur + arg, t))
  {
    hide Escape, Unescape;
    var s := EscapeAll(arg) + [QUOTE] + t;
    if arg == [] {
      assert s[1..] == t && s[0] == QUOTE;
      assert At(s, 1) == At(t, 0);
      assert cur + arg == cur;
    } else {
      var rest := EscapeAll(arg[1..]) + [QUOTE] + t;
      assert s == Escape(arg[0]) + rest;
      TokenEscape(arg[0], rest, cur);
      TokenQuoted(arg[1..], t, cur + [arg[0]]);
      assert cur + [arg[0]] + arg[1..] == cur + arg;
    }
  }

  lemma {:induction false} SplitQuoted(arg: seq<Byte>, t: seq<Byte>)
    requires t == [] || IsSpace(t[0])
    ensures SplitLine(Quoted(arg) + t) == match SplitLine(t) case None => None case Some(ts) => Some([arg] + ts)
  {
    var s := Quoted(arg) + t;
    assert s[0] == QUOTE;
    assert s[1..] == EscapeAll(arg) + [QUOTE] + t;
    TokenQuoted(arg, t, []);
    assert [] + arg == arg;
  }

  /** Quoting any arguments and splitting the line gives the arguments back. */
  lemma {:induction false} QuotingRoundTrip(args: seq<seq<Byte>>)
    ensures SplitLine(LineOf(args)) == Some(args)
  {
    if |args| == 1 {
      SplitQuoted(args[0], []);
      assert Quoted(args[0]) + [] == Quoted(args[0]);
      assert [args[0]] + [] == args;
    } else if |args| > 1 {
      var t := [SPACE] + LineOf(args[1..]);
      SplitQuoted(args[0], t);
      assert Quoted(args[0]) + t == LineOf(args);
      assert t[1..] == LineOf(args[1..]);
      QuotingRoundTrip(args[1..]);
      assert [args[0]] + args[1..] == args;
    }
  }

  /** The printer writes no NUL, so its output is one C string. */
  lemma {:induction false} QuotedHasNoNul(s: seq<Byte>)
    ensures 0 !in Quoted(s)
  {
    EscapeAllHasNoNul(s);
  }

  lemma {:induction false} EscapeAllHasNoNul(s: seq<Byte>)
    ensures 0 !in EscapeAll(s)
  {
    if s != [] {
      EscapeAllHasNoNul(s[1..]);
      assert 0 !in Escape(s[0]);
    }
  }

  lemma {:induction false} LineOfMore(args: seq<seq<Byte>>, arg: seq<Byte>)
    ensures LineOf(args + [arg]) == LineOf(args) + (if args == [] then [] else [SPACE]) + Quoted(arg)
  {
    hide Quoted;
    if args == [] {
      assert args + [arg] == [arg];
    } else {
      assert (args + [arg])[1..] == args[1..] + [arg];
      LineOfMore(args[1..], arg);
      if |args| > 1 {
        var head, tail, sep := Quoted(args[0]) + [SPACE], LineOf(args[1..]), [SPACE] + Quoted(arg);
        assert head + (tail + [SPACE] + Quoted(arg)) == head + tail + [SPACE] + Quoted(arg);
      }
    }
  }

  /** Quoting a list of arguments and splitting the line again. */
  method QuoteAndSplit(args: seq<seq<Byte>>) returns (vector: Option<seq<seq<Byte>>>)
    ensures vector == Some(args)
  {
    hide LineOf, Quoted, SplitLine;
    var line: seq<Byte> := [];
    EmptyLine(args[..0]);
    for i := 0 to |args|
      invariant line == LineOf(args[..i])
    {
      LineOfMore(args[..i], args[i]);
      assert args[..i + 1] == args[..i] + [args[i]];
      if i > 0 {
        line := line + [SPACE];
      }
      line := CatRepr(line, args[i]);
    }
    assert args[..|args|] == args;
    QuotingRoundTrip(args);
    vector := SplitArgs(line);
  }

  lemma {:induction false} EmptyLine(args: seq<seq<Byte>>)
    requires args == []
    ensures LineOf(args) == []
  {
  }

  // ---------- Words, single quotes and refusals ----------

  const APOSTROPHE: Byte := 39

  /** A byte that stands for itself outside quotes. */
  predicate InWord(b: Byte) {
    !EndsToken(b) && b != QUOTE && b != APOSTROPHE
  }

  predicate IsWord(w: seq<Byte>) {
    w != [] && !IsSpace(w[0]) && forall i :: 0 <= i < |w| ==> InWord(w[i])
  }

  lemma {:induction false} TokenWord(w: seq<Byte>, t: seq<Byte>, cur: seq<Byte>)
    requires (forall i :: 0 <= i < |w| ==> InWord(w[i])) && (t == [] || EndsToken(t[0]))
    ensures Token(w + t, Plain, cur) == Some((cur + w, if At(t, 0) == 0 then t else t[1..]))
    decreases |w|
  {
    if w == [] {
      assert w + t == t && cur + w == cur;
    } else {
      assert (w + t)[1..] == w[1..] + t;
      TokenWord(w[1..], t, cur + [w[0]]);
      assert cur + [w[0]] + w[1..] == cur + w;
    }
  }

  /** A word in front of a line is its first token, byte for byte. */
  lemma {:induction false} SplitWord(w: seq<Byte>, t: seq<Byte>)
    requires IsWord(w) && (t == [] || EndsToken(t[0]))
    ensures SplitLine(w + t) == Behind([w], SplitLine(t))
  {
    var s := w + t;
    assert s[0] == w[0];
    TokenWord(w, t, []);
    assert [] + w == w;
  }

  /** Words separated by spaces. */
  function Spaced(words: seq<seq<Byte>>): seq<Byte> {
    if words == [] then []
    else if |words| == 1 then words[0]
    else words[0] + ([SPACE] + Spaced(words[1..]))
  }

  /** A line of words is split into exactly these words. */
  lemma {:induction false} SplitWords(words: seq<seq<Byte>>)
    requires forall i :: 0 <= i < |words| ==> IsWord(words[i])
    ensures SplitLine(Spaced(words)) == Some(words)
  {
    hide IsWord;
    if |words| == 1 {
      SplitWord(words[0], []);
      assert words[0] + [] == words[0];
      assert [words[0]] + [] == words;
    } else if |words| > 1 {
      var t := [SPACE] + Spaced(words[1..]);
      SplitWord(words[0], t);
      assert t[1..] == Spaced(words[1..]);
      SplitWords(words[1..]);
      assert [words[0]] + words[1..] == words;
    }
  }

  /** A text as it is written between apostrophes. */
  function EscapeApostrophes(arg: seq<Byte>): seq<Byte> {
    if arg == [] then []
    else (if arg[0] == APOSTROPHE then [BACKSLASH, APOSTROPHE] else [arg[0]]) + EscapeApostrophes(arg[1..])
  }

  predicate EndsInBackslash(arg: seq<Byte>) {
    arg != [] && arg[|arg| - 1] == BACKSLASH
  }

  /** One byte of such a text, unless it is a backslash right before the closing apostrophe. */
  lemma {:induction false} TokenSingleStep(arg: seq<Byte>, t: seq<Byte>, cur: seq<Byte>)
    requires arg != [] && arg[0] != 0
    requires !(|arg| == 1 && arg[0] == BACKSLASH && At(t, 0) == APOSTROPHE)
    ensures Token(EscapeApostrophes(arg) + t, SingleQuoted, cur)
         == Token(EscapeApostrophes(arg[1..]) + t, SingleQuoted, cur + [arg[0]])
  {
    var rest := EscapeApostrophes(arg[1..]) + t;
    var s := EscapeApostrophes(arg) + t;
    if arg[0] == APOSTROPHE {
      assert s == [BACKSLASH, APOSTROPHE] + rest && s[2..] == rest;
    } else {
      assert s == [arg[0]] + rest && s[1..] == rest;
      assert At(s, 1) == At(rest, 0);
      if |arg| > 1 {
        assert EscapeApostrophes(arg[1..])[0] != APOSTROPHE;
        assert At(rest, 0) != APOSTROPHE;
      }
    }
  }

  /** It is read back when it does not end in a backslash. */
  lemma {:induction false} TokenSingle(arg: seq<Byte>, t: seq<Byte>, cur: seq<Byte>)
    requires 0 !in arg && !EndsInBackslash(arg) && (t == [] || IsSpace(t[0]))
    ensures Token(EscapeApostrophes(arg) + ([APOSTROPHE] + t), SingleQuoted, cur) == Some((cur + arg, t))
  {
    if arg == [] {
      var s := EscapeApostrophes(arg) + ([APOSTROPHE] + t);
      assert s == [APOSTROPHE] + t && s[1..] == t && At(s, 1) == At(t, 0);
      assert cur + arg == cur;
    } else {
      TokenSingleStep(arg, [APOSTROPHE] + t, cur);
      TokenSingle(arg[1..], t, cur + [arg[0]]);
      assert cur + [arg[0]] + arg[1..] == cur + arg;
    }
  }

  lemma {:induction false} SingleUnclosed(arg: seq<Byte>, cur: seq<Byte>)
    requires 0 !in arg
    ensures Token(EscapeApostrophes(arg) + [], SingleQuoted, cur) == None
  {
    if arg != [] {
      TokenSingleStep(arg, [], cur);
      SingleUnclosed(arg[1..], cur + [arg[0]]);
    }
  }

  /** A text that ends in a backslash swallows the closing apostrophe. */
  lemma {:induction false} SingleSwallows(arg: seq<Byte>, cur: seq<Byte>)
    requires 0 !in arg && EndsInBackslash(arg)
    ensures Token(EscapeApostrophes(arg) + [APOSTROPHE], SingleQuoted, cur) == None
  {
    if |arg| == 1 {
      var s := EscapeApostrophes(arg) + [APOSTROPHE];
      assert s == [BACKSLASH, APOSTROPHE] && s[2..] == [];
    } else {
      TokenSingleStep(arg, [APOSTROPHE], cur);
      SingleSwallows(arg[1..], cur + [arg[0]]);
    }
  }

  /** Between apostrophes, a text is read back exactly if it does not end in a backslash. */
  lemma {:induction false} SingleRoundTrip(arg: seq<Byte>)
    requires 0 !in arg
    ensures SplitLine([APOSTROPHE] + EscapeApostrophes(arg) + [APOSTROPHE])
         == if EndsInBackslash(arg) then None else Some([arg])
  {
    var s := [APOSTROPHE] + EscapeApostrophes(arg) + [APOSTROPHE];
    assert s[1..] == EscapeApostrophes(arg) + [APOSTROPHE];
    if EndsInBackslash(arg) {
      SingleSwallows(arg, []);
    } else {
      TokenSingle(arg, [], []);
      assert [APOSTROPHE] + [] == [APOSTROPHE] && [] + arg == arg;
      assert SplitLine([]) == Some([]) && [arg] + [] == [arg];
    }
  }

  lemma {:induction false} TokenUnclosed(arg: seq<Byte>, cur: seq<Byte>)
    ensures Token(EscapeAll(arg), DoubleQuoted, cur) == None
  {
    if arg != [] {
      TokenEscape(arg[0], EscapeAll(arg[1..]), cur);
      TokenUnclosed(arg[1..], cur + [arg[0]]);
    }
  }

  lemma {:induction false} TokenGlued(arg: seq<Byte>, t: seq<Byte>, cur: seq<Byte>)
    requires At(t, 0) != 0 && !IsSpace(t[0])
    ensures Token(EscapeAll(arg) + ([QUOTE] + t), DoubleQuoted, cur) == None
  {
    var s := EscapeAll(arg) + ([QUOTE] + t);
    if arg == [] {
      assert s == [QUOTE] + t && At(s, 1) == t[0];
    } else {
      var rest := EscapeAll(arg[1..]) + ([QUOTE] + t);
      assert s == Escape(arg[0]) + rest;
      TokenEscape(arg[0], rest, cur);
      TokenGlued(arg[1..], t, cur + [arg[0]]);
    }
  }

  lemma {:induction false} SingleGlued(arg: seq<Byte>, t: seq<Byte>, cur: seq<Byte>)
    requires 0 !in arg && !EndsInBackslash(arg) && At(t, 0) != 0 && !IsSpace(t[0])
    ensures Token(EscapeApostrophes(arg) + ([APOSTROPHE] + t), SingleQuoted, cur) == None
  {
    if arg == [] {
      var s := EscapeApostrophes(arg) + ([APOSTROPHE] + t);
      assert s == [APOSTROPHE] + t && At(s, 1) == t[0];
    } else {
      TokenSingleStep(arg, [APOSTROPHE] + t, cur);
      SingleGlued(arg[1..], t, cur + [arg[0]]);
    }
  }

  /** A line with an unclosed quote, or with a quote closed right before more text, is refused. */
  lemma {:induction false} Refused(arg: seq<Byte>, t: seq<Byte>)
    requires At(t, 0) != 0 && !IsSpace(t[0])
    ensures SplitLine([QUOTE] + EscapeAll(arg)) == None && SplitLine(Quoted(arg) + t) == None
    ensures 0 !in arg ==> SplitLine([APOSTROPHE] + EscapeApostrophes(arg)) == None
    ensures 0 !in arg && !EndsInBackslash(arg) ==>
      SplitLine([APOSTROPHE] + EscapeApostrophes(arg) + ([APOSTROPHE] + t)) == None
  {
    hide EscapeAll, EscapeApostrophes;
    TokenUnclosed(arg, []);
    assert ([QUOTE] + EscapeAll(arg))[1..] == EscapeAll(arg);
    TokenGlued(arg, t, []);
    assert (Quoted(arg) + t)[1..] == EscapeAll(arg) + ([QUOTE] + t);
    if 0 !in arg {
      SingleUnclosed(arg, []);
      assert EscapeApostrophes(arg) + [] == EscapeApostrophes(arg);
      assert ([APOSTROPHE] + EscapeApostrophes(arg))[1..] == EscapeApostrophes(arg);
      if !EndsInBackslash(arg) {
        SingleGlued(arg, t, []);
        var s := [APOSTROPHE] + EscapeApostrophes(arg) + ([APOSTROPHE] + t);
        assert s[1..] == EscapeApostrophes(arg) + ([APOSTROPHE] + t);
      }
    }
  }

  /** Two hexadecimal digits after a backslash and x, small or capital, are one byte. */
  lemma {:induction false} TokenHex(m: nat, n: nat, t: seq<Byte>, cur: seq<Byte>)
    requires m < 16 && n < 16
    ensures Token([BACKSLASH, 120, HexDigit(m), HexDigit(n)] + t, DoubleQuoted, cur)
         == Token(t, DoubleQuoted, cur + [16 * m + n])
    ensures m >= 10 && n >= 10 ==>
      Token([BACKSLASH, 120, 55 + m, 55 + n] + t, DoubleQuoted, cur) == Token(t, DoubleQuoted, cur + [16 * m + n])
  {
    var s := [BACKSLASH, 120, HexDigit(m), HexDigit(n)] + t;
    assert s[4..] == t && HexEscape(s);
    if m >= 10 && n >= 10 {
      var s' := [BACKSLASH, 120, 55 + m, 55 + n] + t;
      assert s'[4..] == t && HexEscape(s');
    }
  }

  /** A backslash makes any other byte stand for itself, quotes and backslash included. */
  lemma {:induction false} TokenBackslash(b: Byte, t: seq<Byte>, cur: seq<Byte>)
    requires b != 0 && b !in {110, 114, 116, 98, 97} && !HexEscape([BACKSLASH, b] + t)
    ensures Token([BACKSLASH, b] + t, DoubleQuoted, cur) == Token(t, DoubleQuoted, cur + [b])
  {
    assert ([BACKSLASH, b] + t)[2..] == t;
  }

  /** Blanks in front of a token do not matter, and a NUL ends the line. */
  lemma {:induction false} SplitBlank(b: Byte, s: seq<Byte>)
    ensures IsSpace(b) ==> SplitLine([b] + s) == SplitLine(s)
    ensures SplitLine([0] + s) == SplitLine([]) == Some([])
  {
    assert ([b] + s)[1..] == s;
  }
}
