/** Splitting and parsing of subscription strings such as "temperature:3". */
module EventSyntax {

  datatype Parse<+T> = Ok(value: T) | Throws

  /** How many leading characters are no separators. */
  function RunLength(s: string, seps: string): (n: nat)
    ensures n <= |s|
    ensures forall i :: 0 <= i < n ==> s[i] !in seps
    ensures n < |s| ==> s[n] in seps
  {
    if s == "" || s[0] in seps then 0 else 1 + RunLength(s[1..], seps)
  }

  /** The maximal separator-free pieces, from left to right. */
  function Tokens(s: string, seps: string): seq<string> {
    if s == "" then []
    else if s[0] in seps then Tokens(s[1..], seps)
    else var n := RunLength(s, seps); [s[..n]] + Tokens(s[n..], seps)
  }

  method IsSeparator(c: char, seps: string) returns (found: bool)
    ensures found <==> c in seps
  {
    for x := 0 to |seps|
      invariant c !in seps[..x]
    {
      if c == seps[x] {
        return true;
      }
    }
    return false;
  }

  lemma {:induction false} RunLengthIs(s: string, seps: string, i: nat, j: nat)
    requires i <= j <= |s| && (forall k :: i <= k < j ==> s[k] !in seps)
    requires j == |s| || s[j] in seps
    ensures RunLength(s[i..], seps) == j - i
    decreases j - i
  {
    if i < j {
      RunLengthIs(s, seps, i + 1, j);
      assert s[i..][1..] == s[i + 1..];
    }
  }

  lemma {:induction false} TokensSkip(s: string, seps: string, i: nat)
    requires i < |s| && s[i] in seps
    ensures Tokens(s[i..], seps) == Tokens(s[i + 1..], seps)
  {
    assert s[i..][1..] == s[i + 1..];
  }

  lemma {:induction false} TokensCut(s: string, seps: string, i: nat, j: nat)
    requires i < j <= |s| && (forall k :: i <= k < j ==> s[k] !in seps)
    requires j == |s| || s[j] in seps
    ensures Tokens(s[i..], seps) == [s[i..j]] + Tokens(s[j..], seps)
  {
    RunLengthIs(s, seps, i, j);
    assert s[i..][..j - i] == s[i..j] && s[i..][j - i..] == s[j..];
  }

  /** split: skip separators, then cut up to the next one. */
  method Split(s: string, seps: string) returns (result: seq<string>)
    ensures result == Tokens(s, seps)
  {
    hide Tokens;
    result := [];
    var i := 0;
    assert s[0..] == s;
    while i != |s|
      invariant 0 <= i <= |s|
      invariant result + Tokens(s[i..], seps) == Tokens(s, seps)
    {
      ghost var i0 := i;
      var flag := false;
      while i != |s| && !flag
        invariant i0 <= i <= |s|
        invariant Tokens(s[i..], seps) == Tokens(s[i0..], seps)
        invariant flag ==> i < |s| && s[i] !in seps
        invariant i == i0 && !flag ==> i < |s|
        decreases |s| - i, !flag
      {
        var sep := IsSeparator(s[i], seps);
        if sep {
          TokensSkip(s, seps, i);
          i := i + 1;
        } else {
          flag := true;
        }
      }
      flag := false;
      var j := i;
      while j != |s| && !flag
        invariant i <= j <= |s|
        invariant forall k :: i <= k < j ==> s[k] !in seps
        invariant flag ==> j < |s| && s[j] in seps
        decreases |s| - j, !flag
      {
        flag := IsSeparator(s[j], seps);
        if !flag {
          j := j + 1;
        }
      }
      if i != j {
        TokensCut(s, seps, i, j);
        assert result + ([s[i..j]] + Tokens(s[j..], seps)) == result + [s[i..j]] + Tokens(s[j..], seps);
        result := result + [s[i..j]];
        i := j;
      }
    }
    TokensNone(seps);
    assert s[|s|..] == "";
  }

  lemma {:induction false} TokensNone(seps: string)
    ensures Tokens("", seps) == []
  {
  }

  function WithoutSeparators(s: string, seps: string): string {
    if s == "" then "" else (if s[0] in seps then "" else [s[0]]) + WithoutSeparators(s[1..], seps)
  }

  function Joined(ts: seq<string>): string {
    if ts == [] then "" else ts[0] + Joined(ts[1..])
  }

  /** The pieces are non-empty and separator-free, and together they are the text without its
      separators. */
  lemma {:induction false} TokensPartition(s: string, seps: string)
    ensures Joined(Tokens(s, seps)) == WithoutSeparators(s, seps)
    ensures forall t :: t in Tokens(s, seps) ==> IsPiece(t, seps)
    decreases |s|
  {
    if s != "" {
      if s[0] in seps {
        TokensPartition(s[1..], seps);
      } else {
        var n := RunLength(s, seps);
        TokensPartition(s[n..], seps);
        KeepsRun(s, seps, n);
        assert IsPiece(s[..n], seps);
        hide IsPiece;
        var rest := Tokens(s[n..], seps);
        assert Tokens(s, seps) == [s[..n]] + rest;
        JoinedOne(s[..n], rest);
      }
    }
  }

  predicate IsPiece(t: string, seps: string) {
    t != "" && forall i :: 0 <= i < |t| ==> t[i] !in seps
  }

  lemma {:induction false} JoinedOne(t: string, ts: seq<string>)
    ensures Joined([t] + ts) == t + Joined(ts)
  {
  }

  lemma {:induction false} KeepsRun(s: string, seps: string, n: nat)
    requires n <= |s| && forall i :: 0 <= i < n ==> s[i] !in seps
    ensures WithoutSeparators(s, seps) == s[..n] + WithoutSeparators(s[n..], seps)
  {
    if n > 0 {
      KeepsRun(s[1..], seps, n - 1);
      assert s[1..][n - 1..] == s[n..] && s[..n] == [s[0]] + s[1..][..n - 1];
    } else {
      assert s[0..] == s;
    }
  }

  predicate IsDigit(c: char) {
    '0' <= c <= '9'
  }

  function Value(s: string, v: nat): nat {
    if s == "" || !IsDigit(s[0]) then v else Value(s[1..], 10 * v + (s[0] as int - '0' as int))
  }

  predicate IsSpace(c: char) {
    c == ' ' || '\t' <= c <= '\r'
  }

  /** std::stoi: blanks, a sign, digits; anything after the digits is ignored. */
  function Stoi(s: string): Parse<int> {
    if s != "" && IsSpace(s[0]) then Stoi(s[1..])
    else
      var neg := s != "" && s[0] == '-';
      var body := if s != "" && (s[0] == '-' || s[0] == '+') then s[1..] else s;
      if body == "" || !IsDigit(body[0]) then Throws
      else
        var v: int := Value(body, 0);
        var n := if neg then -v else v;
        if -0x8000_0000 <= n < 0x8000_0000 then Ok(n) else Throws
  }

  /** ParseEvent on the pieces; the first piece of an empty vector does not exist. */
  function ParseEvent(full: string): Parse<(string, int)> {
    var v := Tokens(full, ":");
    if |v| == 0 then Throws
    else if |v| == 1 then Ok((v[0], 1))
    else match Stoi(v[1])
      case Throws => Throws
      case Ok(n) => Ok((v[0], n))
  }

  /** ParseEvent as the server runs it, on the pieces that Split returns. */
  method ReadEvent(full: string) returns (event: Parse<(string, int)>)
    ensures event == ParseEvent(full)
  {
    var v := Split(full, ":");
    if |v| == 1 {
      return Ok((v[0], 1));
    }
    if |v| == 0 {
      return Throws;
    }
    var num := Stoi(v[1]);
    return if num.Throws? then Throws else Ok((v[0], num.value));
  }

  /** Decimal notation. */
  function Show(n: nat): (s: string)
    ensures s != "" && forall i :: 0 <= i < |s| ==> IsDigit(s[i])
  {
    if n < 10 then [('0' as int + n) as char] else Show(n / 10) + [('0' as int + n % 10) as char]
  }

  lemma {:induction false} ValueOfShow(n: nat, t: string)
    ensures Value(Show(n) + t, 0) == Value(t, n)
  {
    if n < 10 {
      assert (Show(n) + t)[1..] == t;
    } else {
      var last := [('0' as int + n % 10) as char];
      assert Show(n) + t == Show(n / 10) + (last + t);
      ValueOfShow(n / 10, last + t);
      assert (last + t)[1..] == t;
    }
  }

  /** "name:n" subscribes to `n` publications of `name`, and "name" to one. */
  lemma {:induction false} ParseEventInverts(name: string, n: nat)
    requires name != "" && ':' !in name && n < 0x8000_0000
    ensures ParseEvent(name + ":" + Show(n)) == Ok((name, n))
    ensures ParseEvent(name) == Ok((name, 1))
  {
    TokensTwo(name, Show(n));
    TokensOne(name);
    ValueOfShow(n, "");
    assert Show(n) + "" == Show(n);
  }

  lemma {:induction false} TokensTwo(a: string, b: string)
    requires a != "" && b != "" && ':' !in a && ':' !in b
    ensures Tokens(a + ":" + b, ":") == [a, b]
  {
    var full := a + ":" + b;
    TokensCut(full, ":", 0, |a|);
    TokensSkip(full, ":", |a|);
    TokensOne(b);
    assert full[0..] == full && full[0..|a|] == a && full[|a| + 1..] == b;
  }

  lemma {:induction false} TokensOne(s: string)
    requires s != "" && ':' !in s
    ensures Tokens(s, ":") == [s]
  {
    assert s[0..] == s;
    RunLengthIs(s, ":", 0, |s|);
    assert s[..|s|] == s && s[|s|..] == "";
  }

  /** Numbers that do not fit make the request fail, and so does a second piece without digits;
      blanks, a sign and text after the digits are accepted, and further pieces are ignored. */
  lemma {:induction false} StoiReads(n: nat, t: string)
    requires t == "" || !IsDigit(t[0])
    ensures Stoi(Show(n) + t) == if n < 0x8000_0000 then Ok(n) else Throws
    ensures Stoi("+" + (Show(n) + t)) == Stoi(Show(n) + t)
    ensures var m: int := n; Stoi("-" + (Show(n) + t)) == if n <= 0x8000_0000 then Ok(-m) else Throws
    ensures Stoi(" " + (Show(n) + t)) == Stoi(Show(n) + t)
    ensures (t == "" || !(IsSpace(t[0]) || t[0] == '-' || t[0] == '+')) ==> Stoi(t) == Throws
  {
    var s := Show(n) + t;
    ValueOfShow(n, t);
    assert IsDigit(s[0]) by { assert s[0] == Show(n)[0]; }
    assert ("+" + s)[1..] == s && ("-" + s)[1..] == s && (" " + s)[1..] == s;
  }

  /** The piece in front of a separator is the first. */
  lemma {:induction false} TokensFront(a: string, t: string)
    requires a != "" && ':' !in a
    ensures Tokens(a + ":" + t, ":") == [a] + Tokens(t, ":")
  {
    hide Tokens;
    var s := a + ":" + t;
    assert forall i :: 0 <= i < |a| ==> s[i] == a[i];
    TokensCut(s, ":", 0, |a|);
    TokensSkip(s, ":", |a|);
    assert s[0..] == s && s[0..|a|] == a && s[|a| + 1..] == t;
  }

  /** Pieces after the second are ignored. */
  lemma {:induction false} ParseEventIgnores(name: string, n: nat, rest: string)
    requires name != "" && ':' !in name && n < 0x8000_0000
    ensures ParseEvent(name + ":" + (Show(n) + ":" + rest)) == Ok((name, n))
  {
    hide Tokens, Stoi;
    assert ':' !in Show(n);
    TokensFront(name, Show(n) + ":" + rest);
    TokensFront(Show(n), rest);
    StoiReads(n, "");
    assert Show(n) + "" == Show(n);
  }

  /** A count that is no number makes it throw. */
  lemma {:induction false} ParseEventThrows(name: string, b: string)
    requires name != "" && ':' !in name && b != "" && ':' !in b
    requires !IsDigit(b[0]) && !IsSpace(b[0]) && b[0] != '-' && b[0] != '+'
    ensures ParseEvent(name + ":" + b) == Throws
  {
    TokensTwo(name, b);
  }
}
