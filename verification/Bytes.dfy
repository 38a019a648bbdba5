/** Bytes, protocol lines and decimal notation, shared by the RESP modules. */
module Bytes {
  import opened Common

  type Byte = b: int | 0 <= b < 256

  const CR: Byte := 13
  const LF: Byte := 10
  const CRLF: seq<Byte> := [CR, LF]

  predicate IsDigit(b: Byte) {
    48 <= b <= 57
  }

  /** Decimal notation of `n`, most significant digit first, without leading zeros. */
  function Dec(n: nat): (s: seq<Byte>)
    ensures |s| >= 1
    ensures forall i :: 0 <= i < |s| ==> IsDigit(s[i])
  {
    if n < 10 then [48 + n] else Dec(n / 10) + [48 + n % 10]
  }

  predicate IsCRLFAt(s: seq<Byte>, i: int) {
    0 <= i && i + 1 < |s| && s[i] == CR && s[i + 1] == LF
  }

  /** Position of the first carriage return that a line feed follows. */
  function FindCRLF(s: seq<Byte>): (r: Option<nat>)
    ensures r.Some? ==> IsCRLFAt(s, r.value)
  {
    if |s| < 2 then None
    else if IsCRLFAt(s, 0) then Some(0)
    else match FindCRLF(s[1..])
      case None => None
      case Some(i) => Some(i + 1)
  }

  lemma {:induction false} FindCRLFExtends(s: seq<Byte>, t: seq<Byte>)
    requires FindCRLF(s).Some?
    ensures FindCRLF(s + t) == FindCRLF(s)
  {
    if !IsCRLFAt(s, 0) {
      assert (s + t)[1..] == s[1..] + t;
      FindCRLFExtends(s[1..], t);
    }
  }

  /** `FindCRLF` is the least position with a CRLF, if there is one. */
  lemma {:induction false} FindCRLFIsFirst(s: seq<Byte>, i: nat)
    requires forall j :: 0 <= j < i ==> !IsCRLFAt(s, j)
    ensures IsCRLFAt(s, i) ==> FindCRLF(s) == Some(i)
    ensures i + 1 >= |s| ==> FindCRLF(s) == None
  {
    if i > 0 && |s| >= 2 {
      assert !IsCRLFAt(s, 0);
      forall j | 0 <= j < i - 1 ensures !IsCRLFAt(s[1..], j) {
        assert !IsCRLFAt(s, j + 1);
      }
      FindCRLFIsFirst(s[1..], i - 1);
      assert IsCRLFAt(s, i) ==> IsCRLFAt(s[1..], i - 1);
    }
  }

  /** A line without CRLF inside ends exactly where its own CRLF starts. */
  lemma {:induction false} FindCRLFAfter(line: seq<Byte>, t: seq<Byte>)
    requires FindCRLF(line) == None
    ensures FindCRLF(line + CRLF + t) == Some(|line|)
  {
    var s := line + CRLF + t;
    if line == [] {
      assert IsCRLFAt(s, 0);
    } else {
      assert s[1..] == line[1..] + CRLF + t;
      assert !IsCRLFAt(s, 0);
      FindCRLFAfter(line[1..], t);
    }
  }

  /** Digits read from the left, up to the first carriage return or the end of the line. */
  function ReadDigits(s: seq<Byte>, v: nat): Option<nat> {
    if s == [] || s[0] == CR then Some(v)
    else if IsDigit(s[0]) then ReadDigits(s[1..], 10 * v + s[0] - 48)
    else None
  }

  /** The number a protocol line denotes; every unexpected byte makes it -1. */
  function NumberOf(line: seq<Byte>): int {
    if line != [] && line[0] == 45 then
      match ReadDigits(line[1..], 0) case None => -1 case Some(v) => var w: int := v; -w
    else
      var body := if line != [] && line[0] == 43 then line[1..] else line;
      match ReadDigits(body, 0) case None => -1 case Some(v) => v
  }

  /** Decimal notation of an integer. */
  function DecInt(n: int): seq<Byte> {
    if n < 0 then [45] + Dec(-n) else Dec(n)
  }

  lemma {:induction false} ReadDigitsOfDec(n: nat, t: seq<Byte>)
    ensures ReadDigits(Dec(n) + t, 0) == ReadDigits(t, n)
  {
    if n < 10 {
      assert (Dec(n) + t)[1..] == t;
    } else {
      var last: seq<Byte> := [48 + n % 10];
      assert Dec(n) + t == Dec(n / 10) + (last + t);
      ReadDigitsOfDec(n / 10, last + t);
      assert (last + t)[1..] == t;
    }
  }

  /** Reading undoes writing, for every integer. */
  lemma {:induction false} NumberOfDecInt(n: int)
    ensures NumberOf(DecInt(n)) == n
  {
    var m: nat := if n < 0 then -n else n;
    ReadDigitsOfDec(m, []);
    assert Dec(m) + [] == Dec(m);
    if n < 0 {
      assert DecInt(n)[1..] == Dec(m);
    }
  }

  function Zeros(z: nat): (s: seq<Byte>)
    ensures |s| == z
  {
    seq(z, _ => 48)
  }

  lemma {:induction false} ReadZeros(z: nat, t: seq<Byte>)
    ensures ReadDigits(Zeros(z) + t, 0) == ReadDigits(t, 0)
  {
    if z > 0 {
      assert (Zeros(z) + t)[1..] == Zeros(z - 1) + t;
      ReadZeros(z - 1, t);
    } else {
      assert Zeros(0) + t == t;
    }
  }

  lemma {:induction false} ReadBad(digits: seq<Byte>, b: Byte, t: seq<Byte>, v: nat)
    requires (forall i :: 0 <= i < |digits| ==> IsDigit(digits[i])) && !IsDigit(b) && b != CR
    ensures ReadDigits(digits + ([b] + t), v) == None
  {
    var s := digits + ([b] + t);
    if digits == [] {
      assert s[0] == b;
    } else {
      assert s[1..] == digits[1..] + ([b] + t);
      ReadBad(digits[1..], b, t, 10 * v + digits[0] - 48);
    }
  }

  /** A sign and leading zeros are read as one expects; nothing counts as zero. */
  lemma {:induction false} NumberOfSigned(z: nat, n: nat)
    ensures NumberOf(Zeros(z) + Dec(n)) == n
    ensures NumberOf([43] + (Zeros(z) + Dec(n))) == n
    ensures NumberOf([45] + (Zeros(z) + Dec(n))) + n == 0
    ensures NumberOf([]) == NumberOf([43]) == NumberOf([45]) == 0
  {
    var body := Zeros(z) + Dec(n);
    ReadZeros(z, Dec(n));
    ReadDigitsOfDec(n, []);
    assert Dec(n) + [] == Dec(n);
    assert ([43] + body)[1..] == body && ([45] + body)[1..] == body;
    assert body[0] != 43 && body[0] != 45;
    assert [43][1..] == [] && [45][1..] == [];
  }

  /** Any other byte among the digits makes the number -1, whatever stands around it. */
  lemma {:induction false} NumberOfBad(sign: seq<Byte>, digits: seq<Byte>, b: Byte, t: seq<Byte>)
    requires (forall i :: 0 <= i < |digits| ==> IsDigit(digits[i])) && !IsDigit(b) && b != CR
    requires sign == [43] || sign == [45] || (sign == [] && (digits == [] ==> b != 43 && b != 45))
    ensures NumberOf(sign + (digits + ([b] + t))) == -1
  {
    var body := digits + ([b] + t);
    ReadBad(digits, b, t, 0);
    if sign == [] {
      assert sign + body == body && body[0] == if digits == [] then b else digits[0];
    } else {
      assert (sign + body)[1..] == body && (sign + body)[0] == sign[0];
    }
  }

  /** Decimal notation never contains a CRLF. */
  lemma {:induction false} DecIntIsOneLine(n: int)
    ensures FindCRLF(DecInt(n)) == None
  {
    FindCRLFIsFirst(DecInt(n), |DecInt(n)|);
  }
}
