/**
 Command formatting: the two formatters write the same bytes exactly when no argument is
 4 GiB long or longer, the precomputed length is the number of bytes written, and both the
 reader and the argument scanner of the async layer recover the arguments.
 */
module RespFormat {
  import opened Common
  import opened Bytes
  import opened RespGrammar
  import opened RespRuns

  // ---------- What a command is ----------

  function Bulk(arg: seq<Byte>): seq<Byte> {
    [36] + Dec(|arg|) + CRLF + arg + CRLF
  }

  function Bulks(args: seq<seq<Byte>>): seq<Byte> {
    if args == [] then [] else Bulks(args[..|args| - 1]) + Bulk(args[|args| - 1])
  }

  function Header(argc: nat): seq<Byte> {
    [42] + Dec(argc) + CRLF
  }

  /** A command in the RESP protocol: an array of bulk strings. */
  function Command(args: seq<seq<Byte>>): seq<Byte> {
    Header(|args|) + Bulks(args)
  }

  function Strs(args: seq<seq<Byte>>): (vs: seq<Reply>)
    ensures |vs| == |args|
  {
    seq(|args|, i requires 0 <= i < |args| => Str(args[i]))
  }

  lemma {:induction false} EncodeManyAppend(vs: seq<Reply>, v: Reply)
    ensures EncodeMany(vs + [v]) == EncodeMany(vs) + Encode(v)
  {
    if vs == [] {
      assert vs + [v] == [v];
    } else {
      assert (vs + [v])[1..] == vs[1..] + [v];
      EncodeManyAppend(vs[1..], v);
    }
  }

  lemma {:induction false} BulksAreEncoded(args: seq<seq<Byte>>)
    ensures Bulks(args) == EncodeMany(Strs(args))
  {
    if args != [] {
      var n := |args| - 1;
      BulksAreEncoded(args[..n]);
      assert Strs(args) == Strs(args[..n]) + [Str(args[n])];
      EncodeManyAppend(Strs(args[..n]), Str(args[n]));
    }
  }

  lemma {:induction false} StrsAreFlat(args: seq<seq<Byte>>)
    ensures WellFormedAll(Strs(args)) && NestingMany(Strs(args)) == 0
  {
    if args != [] {
      assert Strs(args)[1..] == Strs(args[1..]);
      StrsAreFlat(args[1..]);
    }
  }

  /** Parsing a formatted command gives back one array of exactly its arguments. */
  lemma {:induction false} CommandParses(args: seq<seq<Byte>>)
    ensures WellFormedAll([Array(|args|, Strs(args))])
    ensures NestingMany([Array(|args|, Strs(args))]) <= MAX_DEPTH
    ensures Command(args) == EncodeMany([Array(|args|, Strs(args))])
    ensures Replies(Command(args)) == Stream([Array(|args|, Strs(args))], Open)
  {
    var v := Array(|args|, Strs(args));
    BulksAreEncoded(args);
    StrsAreFlat(args);
    assert [v][1..] == [];
    assert WellFormed(v) && Nesting(v) == 1;
    assert EncodeMany([v]) == Encode(v) + [];
    EncodedRepliesRead([v]);
  }

  // ---------- Lengths ----------

  lemma {:induction false} FourDigits(v: nat)
    requires v >= 10000
    ensures |Dec(v)| == |Dec(v / 10000)| + 4
  {
    assert v / 10 / 10 == v / 100 && v / 100 / 10 == v / 1000 && v / 1000 / 10 == v / 10000;
    assert |Dec(v)| == |Dec(v / 10)| + 1;
    assert |Dec(v / 10)| == |Dec(v / 100)| + 1;
    assert |Dec(v / 100)| == |Dec(v / 1000)| + 1;
    assert |Dec(v / 1000)| == |Dec(v / 10000)| + 1;
  }

  lemma {:induction false} FewDigits(v: nat)
    requires v < 10000
    ensures |Dec(v)| == if v < 10 then 1 else if v < 100 then 2 else if v < 1000 then 3 else 4
  {
    assert v >= 10 ==> |Dec(v)| == |Dec(v / 10)| + 1;
    assert v >= 100 ==> |Dec(v / 10)| == |Dec(v / 10 / 10)| + 1;
    assert v >= 1000 ==> |Dec(v / 10 / 10)| == |Dec(v / 10 / 10 / 10)| + 1;
  }

  /** Number of decimal digits, four at a time. */
  method CountDigits(v: nat) returns (result: nat)
    ensures result == |Dec(v)|
  {
    result := 1;
    var w := v;
    while true
      invariant result + |Dec(w)| == |Dec(v)| + 1
      decreases w
    {
      if w < 10000 {
        FewDigits(w);
      }
      if w < 10 { return result; }
      if w < 100 { return result + 1; }
      if w < 1000 { return result + 2; }
      if w < 10000 { return result + 3; }
      FourDigits(w);
      w := w / 10000;
      result := result + 4;
    }
  }

  method BulkLen(len: nat) returns (n: nat)
    ensures n == 1 + |Dec(len)| + 2 + len + 2
  {
    var d := CountDigits(len);
    n := 1 + d + 2 + len + 2;
  }

  /** The size computed before anything is written is the size of the command. */
  method TotalLength(args: seq<seq<Byte>>) returns (totlen: nat)
    ensures totlen == |Command(args)|
  {
    var d := CountDigits(|args|);
    totlen := 1 + d + 2;
    for j := 0 to |args|
      invariant totlen == |Header(|args|)| + |Bulks(args[..j])|
    {
      var n := BulkLen(|args[j]|);
      totlen := totlen + n;
      assert args[..j + 1][..j] == args[..j];
    }
    assert args[..|args|] == args;
  }

  // ---------- The malloc formatter ----------

  /** sprintf or memcpy into the command buffer. */
  method Put(cmd: array<Byte>, pos: nat, data: seq<Byte>) returns (next: nat)
    requires pos + |data| <= cmd.Length
    modifies cmd
    ensures next == pos + |data|
    ensures cmd[..next] == old(cmd[..pos]) + data
  {
    for i := 0 to |data|
      invariant cmd[..pos + i] == old(cmd[..pos]) + data[..i]
    {
      cmd[pos + i] := data[i];
    }
    return pos + |data|;
  }

  lemma {:induction false} BulksPrefix(args: seq<seq<Byte>>, j: nat)
    requires j <= |args|
    ensures |Bulks(args[..j])| <= |Bulks(args)|
    decreases |args|
  {
    if j < |args| {
      BulksPrefix(args[..|args| - 1], j);
      assert args[..|args| - 1][..j] == args[..j];
    } else {
      assert args[..j] == args;
    }
  }

  /** redisFormatCommandArgv: a NUL-terminated buffer holding exactly the command. */
  method FormatCommandArgv(args: seq<seq<Byte>>) returns (cmd: array<Byte>, totlen: nat)
    ensures fresh(cmd) && cmd.Length == totlen + 1
    ensures cmd[..totlen] == Command(args) && cmd[totlen] == 0
  {
    totlen := TotalLength(args);
    cmd := new Byte[totlen + 1];
    var pos := Put(cmd, 0, [42] + Dec(|args|) + CRLF);
    for j := 0 to |args|
      invariant fresh(cmd) && pos == |Header(|args|)| + |Bulks(args[..j])|
      invariant pos <= totlen < cmd.Length
      invariant cmd[..pos] == Header(|args|) + Bulks(args[..j])
    {
      BulksPrefix(args, j + 1);
      assert args[..j + 1][..j] == args[..j];
      pos := Put(cmd, pos, [36] + Dec(|args[j]|) + CRLF);
      pos := Put(cmd, pos, args[j]);
      pos := Put(cmd, pos, CRLF);
      Rejoin(Header(|args|), Bulks(args[..j]), [36] + Dec(|args[j]|) + CRLF, args[j]);
    }
    assert args[..|args|] == args;
    assert pos == totlen;
    cmd[pos] := 0;
  }

  lemma {:induction false} Rejoin(h: seq<Byte>, b: seq<Byte>, size: seq<Byte>, arg: seq<Byte>)
    ensures h + b + size + arg + CRLF == h + (b + (size + arg + CRLF))
  {
  }

  // ---------- The sds formatter ----------

  function Reversed(s: seq<Byte>): (r: seq<Byte>)
    ensures |r| == |s|
  {
    seq(|s|, i requires 0 <= i < |s| => s[|s| - 1 - i])
  }

  /** Digit extraction yields the decimal notation backwards. */
  lemma {:induction false} ReversedDec(v: nat)
    ensures Reversed(Dec(v)) == [48 + v % 10] + if v < 10 then [] else Reversed(Dec(v / 10))
  {
    if v >= 10 {
      var d := Dec(v / 10);
      assert Dec(v) == d + [48 + v % 10];
    }
  }

  method ReverseInPlace(s: array<Byte>, n: nat)
    requires n <= s.Length
    modifies s
    ensures s[..n] == Reversed(old(s[..n]))
    ensures forall i :: n <= i < s.Length ==> s[i] == old(s[i])
  {
    var a, b := 0, n - 1;
    while a < b
      invariant 0 <= a <= n && b == n - 1 - a && a <= b + 1
      invariant forall i :: 0 <= i < a ==> s[i] == old(s[n - 1 - i]) && s[n - 1 - i] == old(s[i])
      invariant forall i :: a <= i <= b ==> s[i] == old(s[i])
      invariant forall i :: n <= i < s.Length ==> s[i] == old(s[i])
    {
      s[a], s[b] := s[b], s[a];
      a, b := a + 1, b - 1;
    }
  }

  const LLSTR_SIZE: nat := 21

  /** A number below 10^k has at most k digits; 64-bit values fit the buffer. */
  function Pow10(k: nat): (p: nat)
    ensures p >= 1
  {
    if k == 0 then 1 else 10 * Pow10(k - 1)
  }

  lemma {:induction false} DecFits(v: nat, k: nat)
    requires k >= 1 && v < Pow10(k)
    ensures |Dec(v)| <= k
  {
    assert k == 1 ==> Pow10(k) == 10;
    if v >= 10 {
      DecFits(v / 10, k - 1);
    }
  }

  lemma {:induction false} SixtyFourBits()
    ensures 0x1_0000_0000_0000_0000 < Pow10(20) && 0x8000_0000_0000_0000 < Pow10(19)
  {
    assert Pow10(4) == 10000 by {
      assert Pow10(2) == 100;
    }
    assert Pow10(8) == 100000000 by {
      assert Pow10(6) == 1000000;
    }
    assert Pow10(12) == 1000000000000 by {
      assert Pow10(10) == 10000000000;
    }
    assert Pow10(16) == 10000000000000000 by {
      assert Pow10(14) == 100000000000000;
    }
    assert Pow10(18) == 1000000000000000000;
    assert Pow10(19) == 10000000000000000000;
  }

  /** The digits of `v`, least significant first, from the start of the buffer. */
  method PutDigits(s: array<Byte>, v: nat) returns (p: nat)
    requires |Dec(v)| <= s.Length
    modifies s
    ensures p == |Dec(v)| && s[..p] == Reversed(Dec(v))
  {
    hide Dec, Reversed;
    p := 0;
    var w := v;
    while true
      invariant p + |Dec(w)| <= s.Length
      invariant s[..p] + Reversed(Dec(w)) == Reversed(Dec(v))
      decreases w
    {
      ReversedDec(w);
      ghost var front, rest := s[..p], if w < 10 then [] else Reversed(Dec(w / 10));
      assert front + ([48 + w % 10] + rest) == front + [48 + w % 10] + rest;
      s[p] := 48 + w % 10;
      assert s[..p + 1] == front + [48 + w % 10];
      p := p + 1;
      w := w / 10;
      if w == 0 {
        break;
      }
    }
  }

  lemma {:induction false} DecIntFits(value: int)
    requires -0x8000_0000_0000_0000 <= value < 0x1_0000_0000_0000_0000
    ensures |DecInt(value)| < LLSTR_SIZE
    ensures var v: nat := if value < 0 then -value else value;
            Reversed(DecInt(value)) == Reversed(Dec(v)) + if value < 0 then [45] else []
  {
    hide Dec;
    SixtyFourBits();
    var v: nat := if value < 0 then -value else value;
    DecFits(v, if value < 0 then 19 else 20);
  }

  lemma {:induction false} ReversedTwice(s: seq<Byte>)
    ensures Reversed(Reversed(s)) == s
  {
  }

  /** sdsll2str and sdsull2str: decimal notation of a 64-bit value, by extraction and reversal. */
  method Ll2Str(s: array<Byte>, value: int) returns (l: nat)
    requires s.Length >= LLSTR_SIZE
    requires -0x8000_0000_0000_0000 <= value < 0x1_0000_0000_0000_0000
    modifies s
    ensures l < s.Length && s[..l] == DecInt(value) && s[l] == 0
  {
    hide Dec, DecInt, Reversed;
    var v: nat := if value < 0 then -value else value;
    DecIntFits(value);
    l := PutDigits(s, v);
    if value < 0 {
      s[l] := 45;
      l := l + 1;
    }
    assert s[..l] == Reversed(DecInt(value));
    s[l] := 0;
    ReverseInPlace(s, l);
    ReversedTwice(DecInt(value));
  }

  const UINT: nat := 0x1_0000_0000

  /** redisFormatSdsCommandArgv: sizes go through an unsigned int conversion, and the final assert
      compares the length with the precomputed one; None is its failure. */
  method FormatSdsCommandArgv(args: seq<seq<Byte>>) returns (target: Option<seq<Byte>>, totlen: nat)
    requires |args| < 0x8000_0000
    ensures totlen == |Command(args)|
    ensures target == if SameDigits(args) then Some(SdsCommand(args)) else None
    ensures target == Some(Command(args)) <==> AllShort(args)
  {
    hide Dec, SdsCommand, Command, SameDigits, AllShort;
    totlen := TotalLength(args);
    var cmd := BuildSdsCommand(args);
    LengthsAgree(args);
    FormattersAgree(args);
    if |cmd| == totlen {
      return Some(cmd), totlen;
    }
    return None, totlen;
  }

  method BuildSdsCommand(args: seq<seq<Byte>>) returns (cmd: seq<Byte>)
    requires |args| < 0x8000_0000
    ensures cmd == SdsCommand(args)
  {
    hide Dec;
    var digits := new Byte[LLSTR_SIZE];
    var l := Ll2Str(digits, |args|);
    cmd := [42] + digits[..l] + CRLF;
    for j := 0 to |args|
      invariant cmd == Header(|args|) + SdsBulks(args[..j])
    {
      l := Ll2Str(digits, |args[j]| % UINT);
      assert args[..j + 1][..j] == args[..j];
      var size := [36] + digits[..l] + CRLF;
      cmd := cmd + size;
      cmd := cmd + args[j];
      cmd := cmd + CRLF;
      Rejoin(Header(|args|), SdsBulks(args[..j]), size, args[j]);
    }
    assert args[..|args|] == args;
  }

  function SdsBulk(arg: seq<Byte>): seq<Byte> {
    [36] + Dec(|arg| % UINT) + CRLF + arg + CRLF
  }

  function SdsBulks(args: seq<seq<Byte>>): seq<Byte> {
    if args == [] then [] else SdsBulks(args[..|args| - 1]) + SdsBulk(args[|args| - 1])
  }

  function SdsCommand(args: seq<seq<Byte>>): seq<Byte> {
    Header(|args|) + SdsBulks(args)
  }

  lemma {:induction false} DecInjective(m: nat, n: nat)
    requires Dec(m) == Dec(n)
    ensures m == n
  {
    ReadDigitsOfDec(m, []);
    ReadDigitsOfDec(n, []);
  }

  lemma {:induction false} DecMonotone(m: nat, n: nat)
    requires m <= n
    ensures |Dec(m)| <= |Dec(n)|
  {
    if m >= 10 {
      DecMonotone(m / 10, n / 10);
    }
  }

  lemma {:induction false} SdsBulksShorter(args: seq<seq<Byte>>)
    ensures |SdsBulks(args)| <= |Bulks(args)|
  {
    if args != [] {
      var n := |args| - 1;
      SdsBulksShorter(args[..n]);
      DecMonotone(|args[n]| % UINT, |args[n]|);
    }
  }

  /** Truncation to 32 bits changes the number of digits of no length. */
  ghost predicate SameDigits(args: seq<seq<Byte>>) {
    forall i :: 0 <= i < |args| ==> |Dec(|args[i]| % UINT)| == |Dec(|args[i]|)|
  }

  /** When the final assert holds: equal lengths need equal digit counts throughout. */
  lemma {:induction false} LengthsAgree(args: seq<seq<Byte>>)
    ensures |SdsCommand(args)| == |Command(args)| <==> SameDigits(args)
    ensures AllShort(args) ==> SameDigits(args)
  {
    BulkLengthsAgree(args);
  }

  lemma {:induction false} BulkLengthsAgree(args: seq<seq<Byte>>)
    ensures |SdsBulks(args)| == |Bulks(args)| <==> SameDigits(args)
  {
    hide Dec;
    if args != [] {
      var n := |args| - 1;
      BulkLengthsAgree(args[..n]);
      SdsBulksShorter(args[..n]);
      DecMonotone(|args[n]| % UINT, |args[n]|);
      assert forall i :: 0 <= i < n ==> args[..n][i] == args[i];
      assert SameDigits(args) <==> SameDigits(args[..n]) && |Dec(|args[n]| % UINT)| == |Dec(|args[n]|)|;
    }
  }

  ghost predicate AllShort(args: seq<seq<Byte>>) {
    forall i :: 0 <= i < |args| ==> |args[i]| < UINT
  }

  /** The two formatters agree byte for byte exactly when every length fits an unsigned int. */
  lemma {:induction false} FormattersAgree(args: seq<seq<Byte>>)
    ensures SdsCommand(args) == Command(args) <==> AllShort(args)
  {
    if AllShort(args) {
      ShortBulksAgree(args);
    }
    if SdsBulks(args) == Bulks(args) {
      EqualBulksShort(args);
    }
    var h := Header(|args|);
    assert SdsCommand(args)[|h|..] == SdsBulks(args) && Command(args)[|h|..] == Bulks(args);
  }

  lemma {:induction false} ShortBulksAgree(args: seq<seq<Byte>>)
    requires AllShort(args)
    ensures SdsBulks(args) == Bulks(args)
  {
    hide Dec;
    if args != [] {
      var front, arg := args[..|args| - 1], args[|args| - 1];
      assert forall i :: 0 <= i < |front| ==> front[i] == args[i];
      ShortBulksAgree(front);
      assert |arg| % UINT == |arg|;
      assert SdsBulk(arg) == Bulk(arg);
    }
  }

  lemma {:induction false} EqualBulksShort(args: seq<seq<Byte>>)
    requires SdsBulks(args) == Bulks(args)
    ensures AllShort(args)
  {
    if args != [] {
      var front, arg := args[..|args| - 1], args[|args| - 1];
      SdsBulksShorter(front);
      DecMonotone(|arg| % UINT, |arg|);
      SameTail(SdsBulks(front), SdsBulk(arg), Bulks(front), Bulk(arg));
      BulkAgrees(arg);
      EqualBulksShort(front);
      assert forall i :: 0 <= i < |front| ==> args[i] == front[i];
    }
  }

  lemma {:induction false} BulkAgrees(arg: seq<Byte>)
    requires SdsBulk(arg) == Bulk(arg)
    ensures |arg| < UINT
  {
    var a, b := Dec(|arg| % UINT), Dec(|arg|);
    assert |a| == |b|;
    assert SdsBulk(arg)[1..1 + |a|] == a && Bulk(arg)[1..1 + |b|] == b;
    DecInjective(|arg| % UINT, |arg|);
  }

  lemma {:induction false} SameTail(a: seq<Byte>, x: seq<Byte>, b: seq<Byte>, y: seq<Byte>)
    requires a + x == b + y && |a| <= |b| && |x| <= |y|
    ensures a == b && x == y
  {
    assert |a| == |b|;
    assert (a + x)[..|a|] == a && (b + y)[..|b|] == b;
    assert (a + x)[|a|..] == x && (b + y)[|b|..] == y;
  }

  // ---------- The argument scanner ----------

  /** C's strchr from position `p`, for a byte other than NUL. */
  function StrChr(buf: seq<Byte>, p: nat, c: Byte): (r: Option<nat>)
    ensures r.Some? ==> p <= r.value < |buf| && buf[r.value] == c
    decreases |buf| - p
  {
    if p >= |buf| || buf[p] == 0 then None
    else if buf[p] == c then Some(p)
    else StrChr(buf, p + 1, c)
  }

  function LeadingDigits(s: seq<Byte>, v: nat): nat {
    if s == [] || !IsDigit(s[0]) then v else LeadingDigits(s[1..], 10 * v + s[0] - 48)
  }

  /** C's strtol in base 10. */
  function StrToL(s: seq<Byte>): int {
    if s != [] && (s[0] == 32 || 9 <= s[0] <= 13) then StrToL(s[1..])
    else if s != [] && s[0] == 45 then -(LeadingDigits(s[1..], 0) as int)
    else if s != [] && s[0] == 43 then LeadingDigits(s[1..], 0)
    else LeadingDigits(s, 0)
  }

  /** `at` and `len` delimit the argument, `next` is where to look for the following one. */
  datatype NextArg = NoMore | Arg(at: nat, len: int, next: int) | AssertFails

  function NextArgument(buf: seq<Byte>, start: nat): NextArg
    requires start < |buf|
  {
    match if buf[start] == 36 then Some(start) else StrChr(buf, start, 36)
    case None => NoMore
    case Some(p) =>
      var len := StrToL(buf[p + 1..]);
      match StrChr(buf, p, CR)
      case None => AssertFails
      case Some(q) => Arg(q + 2, len, q + 2 + len + 2)
  }

  lemma {:induction false} StrChrSkips(buf: seq<Byte>, p: nat, q: nat, c: Byte)
    requires p <= q <= |buf| && forall i :: p <= i < q ==> buf[i] != 0 && buf[i] != c
    ensures StrChr(buf, p, c) == StrChr(buf, q, c)
    decreases q - p
  {
    if p < q {
      StrChrSkips(buf, p + 1, q, c);
    }
  }

  lemma {:induction false} LeadingDigitsOfDec(n: nat, t: seq<Byte>)
    ensures LeadingDigits(Dec(n) + t, 0) == LeadingDigits(t, n)
  {
    if n < 10 {
      assert (Dec(n) + t)[1..] == t;
    } else {
      var last: seq<Byte> := [48 + n % 10];
      assert Dec(n) + t == Dec(n / 10) + (last + t);
      LeadingDigitsOfDec(n / 10, last + t);
      assert (last + t)[1..] == t;
    }
  }

  /** A bulk argument inside any buffer is delimited exactly. */
  lemma {:induction false} NextArgumentAtBulk(a: seq<Byte>, arg: seq<Byte>, t: seq<Byte>)
    ensures var buf := a + Bulk(arg) + t;
            NextArgument(buf, |a|) == Arg(|a| + 1 + |Dec(|arg|)| + 2, |arg|, |a| + |Bulk(arg)|)
  {
    var d := Dec(|arg|);
    var rest := CRLF + arg + CRLF + t;
    var buf := a + Bulk(arg) + t;
    assert buf == a + ([36] + d + rest);
    assert buf[|a|] == 36;
    assert buf[|a| + 1..] == d + rest;
    LeadingDigitsOfDec(|arg|, rest);
    assert StrToL(d + rest) == |arg| by {
      assert (d + rest)[0] == d[0] && IsDigit(d[0]);
      assert !IsDigit(rest[0]);
    }
    var q := |a| + 1 + |d|;
    forall i | |a| <= i < q ensures buf[i] != 0 && buf[i] != CR {
      assert i > |a| ==> buf[i] == d[i - |a| - 1];
    }
    StrChrSkips(buf, |a|, q, CR);
    assert buf[q] == rest[0] == CR;
  }

  /** Where the `k`-th argument of a command starts. */
  function BulkAt(args: seq<seq<Byte>>, k: nat): nat
    requires k <= |args|
  {
    |Header(|args|)| + |Bulks(args[..k])|
  }

  lemma {:induction false} BulksSplit(args: seq<seq<Byte>>, k: nat) returns (tail: seq<Byte>)
    requires k < |args|
    ensures Bulks(args) == Bulks(args[..k]) + Bulk(args[k]) + tail
  {
    var n := |args| - 1;
    if k == n {
      return [];
    }
    tail := BulksSplit(args[..n], k);
    assert args[..n][..k] == args[..k];
    tail := tail + Bulk(args[n]);
  }

  lemma {:induction false} ScanStep(args: seq<seq<Byte>>, k: nat)
    requires k < |args|
    ensures var buf := Command(args) + [0]; var at := BulkAt(args, k) + 1 + |Dec(|args[k]|)| + 2;
            && BulkAt(args, k) < BulkAt(args, k + 1) < |buf|
            && NextArgument(buf, BulkAt(args, k)) == Arg(at, |args[k]|, BulkAt(args, k + 1))
            && at + |args[k]| <= |buf| && buf[at..at + |args[k]|] == args[k]
  {
    hide Dec, NextArgument;
    var tail := BulksSplit(args, k);
    var a := Header(|args|) + Bulks(args[..k]);
    var buf := Command(args) + [0];
    var size := [36] + Dec(|args[k]|) + CRLF;
    var t := tail + [0];
    assert buf == a + Bulk(args[k]) + t;
    assert args[..k + 1][..k] == args[..k];
    NextArgumentAtBulk(a, args[k], t);
    Window(a + size, args[k], CRLF + t);
    Rejoin4(a, size, args[k], t);
  }

  lemma {:induction false} Rejoin4(a: seq<Byte>, size: seq<Byte>, arg: seq<Byte>, t: seq<Byte>)
    ensures a + (size + arg + CRLF) + t == a + size + arg + (CRLF + t)
  {
  }

  lemma {:induction false} Window(a: seq<Byte>, b: seq<Byte>, c: seq<Byte>)
    ensures (a + b + c)[|a|..|a| + |b|] == b
  {
  }

  lemma {:induction false} ScanEnds(args: seq<seq<Byte>>)
    ensures var buf := Command(args) + [0]; var h := |Header(|args|)|;
            && BulkAt(args, |args|) == |buf| - 1 && BulkAt(args, 0) == h
            && NextArgument(buf, |buf| - 1) == NoMore
            && NextArgument(buf, 0) == NextArgument(buf, h)
  {
    hide Dec, Bulks;
    var buf := Command(args) + [0];
    var header := Header(|args|);
    assert args[..|args|] == args;
    NoBulks(args);
    assert buf[|buf| - 1] == 0;
    HeaderBytes(|args|);
    forall i | 0 <= i < |header| ensures buf[i] != 0 && buf[i] != 36 {
      assert buf[i] == header[i];
    }
    StrChrSkips(buf, 0, |header|, 36);
    assert buf[0] == 42;
  }

  lemma {:induction false} NoBulks(args: seq<seq<Byte>>)
    ensures Bulks(args[..0]) == []
  {
  }

  lemma {:induction false} HeaderBytes(argc: nat)
    ensures forall i :: 0 <= i < |Header(argc)| ==> Header(argc)[i] != 0 && Header(argc)[i] != 36
  {
    var digits := Dec(argc);
    hide Dec;
    forall i | 0 <= i < |Header(argc)| ensures Header(argc)[i] != 0 && Header(argc)[i] != 36 {
      assert 1 <= i < 1 + |digits| ==> Header(argc)[i] == digits[i - 1];
    }
  }

  /** Repeated scanning of a formatted command yields its arguments, in order, and then NULL. */
  method ScanArguments(buf: seq<Byte>, ghost args: seq<seq<Byte>>) returns (found: seq<seq<Byte>>)
    requires buf == Command(args) + [0]
    ensures found == args
  {
    hide NextArgument, Command, BulkAt;
    var p := 0;
    found := [];
    ScanEnds(args);
    if |args| > 0 {
      ScanStep(args, 0);
    }
    while true
      invariant |found| <= |args| && found == args[..|found|]
      invariant 0 <= p < |buf| && BulkAt(args, |found|) < |buf|
      invariant NextArgument(buf, p) == NextArgument(buf, BulkAt(args, |found|))
      decreases |args| - |found|
    {
      if |found| < |args| {
        ScanStep(args, |found|);
      }
      var r := NextArgument(buf, p);
      match r
      case NoMore =>
        return;
      case AssertFails =>
        assert false;
      case Arg(at, len, next) =>
        found := found + [buf[at..at + len]];
        p := next;
    }
  }

  /** Cuts bytes into pieces of the given sizes and a last piece with what is left. */
  method CutUp(s: seq<Byte>, sizes: seq<nat>) returns (chunks: seq<seq<Byte>>)
    ensures Concat(chunks) == s
  {
    chunks := [];
    var p := 0;
    assert s[..0] == [];
    for i := 0 to |sizes|
      invariant p <= |s| && Concat(chunks) == s[..p]
    {
      var q := if p + sizes[i] <= |s| then p + sizes[i] else |s|;
      ConcatMore(chunks, s[p..q]);
      assert s[..p] + s[p..q] == s[..q];
      chunks := chunks + [s[p..q]];
      p := q;
    }
    ConcatMore(chunks, s[p..]);
    assert s[..p] + s[p..] == s;
    chunks := chunks + [s[p..]];
  }

  lemma {:induction false} ConcatMore(chunks: seq<seq<Byte>>, last: seq<Byte>)
    ensures Concat(chunks + [last]) == Concat(chunks) + last
  {
  }

  /** The bytes of a command in any pieces, fed to the reader. */
  method ReadCommand(ghost args: seq<seq<Byte>>, chunks: seq<seq<Byte>>, avail: nat -> nat)
    returns (replies: seq<Reply>, err: Option<ProtocolError>)
    requires Concat(chunks) == Command(args)
    ensures replies == [Array(|args|, Strs(args))] && err == None
  {
    CommandParses(args);
    replies, err := ReadAll(chunks, avail);
  }

  /** What the formatter writes, cut in any way and fed to the reader. */
  method FormatAndRead(args: seq<seq<Byte>>, sizes: seq<nat>, avail: nat -> nat)
    returns (replies: seq<Reply>, err: Option<ProtocolError>)
    ensures replies == [Array(|args|, Strs(args))] && err == None
  {
    hide Command;
    var cmd, totlen := FormatCommandArgv(args);
    var chunks := CutUp(cmd[..totlen], sizes);
    replies, err := ReadCommand(args, chunks, avail);
  }

  /** What the formatter writes, scanned for its arguments. */
  method FormatAndScan(args: seq<seq<Byte>>) returns (found: seq<seq<Byte>>)
    ensures found == args
  {
    hide Command;
    var cmd, totlen := FormatCommandArgv(args);
    assert cmd[..] == cmd[..totlen] + [0];
    found := ScanArguments(cmd[..], args);
  }
}
