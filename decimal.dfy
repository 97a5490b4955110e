/**
 * Decimal text of C `int` values: what `snprintf(..., "%d", d)` writes, the
 * digit-count loop of the /proc read path with C's truncating division, and
 * the `%d` conversion of the kernel's `sscanf`.
 */
module Decimal {
  import opened Options

  function Abs(x: int): nat { if x < 0 then -x else x }

  predicate IsDigit(c: char) { '0' <= c <= '9' }

  predicate AllDigits(s: seq<char>) {
    forall i :: 0 <= i < |s| ==> IsDigit(s[i])
  }

  function DigitChar(v: nat): (c: char)
    requires v < 10
    ensures IsDigit(c) && c as int - '0' as int == v
  {
    ('0' as int + v) as char
  }

  function DigitValue(c: char): (v: nat)
    requires IsDigit(c)
    ensures v < 10 && DigitChar(v) == c
  {
    c as int - '0' as int
  }

  /** The digits of a positive number, most significant first. */
  function Digits(n: nat): (s: seq<char>)
    requires n > 0
    ensures s != [] && AllDigits(s) && s[0] != '0'
  {
    if n < 10 then [DigitChar(n)] else Digits(n / 10) + [DigitChar(n % 10)]
  }

  /** The text `snprintf` writes for `"%d"` (before its terminating NUL). */
  function Text(d: int): seq<char> {
    if d == 0 then "0" else if d < 0 then "-" + Digits(-d) else Digits(d)
  }

  /** The number a digit string denotes, read most significant first. */
  function Value(s: seq<char>): nat
    requires AllDigits(s)
  {
    if s == [] then 0 else 10 * Value(s[..|s| - 1]) + DigitValue(s[|s| - 1])
  }

  /** C's `x / 10` on `int`: the quotient truncated toward zero, so that the
      remainder `x - 10 * q` is below ten in magnitude and never has the
      opposite sign of `x`. */
  function CDiv10(x: int): (q: int)
    ensures -10 < x - 10 * q < 10
    ensures x >= 0 ==> x - 10 * q >= 0
    ensures x <= 0 ==> x - 10 * q <= 0
  {
    if x >= 0 then x / 10 else -((-x) / 10)
  }

  /** The number of passes of `while (data != 0) { data /= 10; ... }`. */
  function DigitLoopCount(x: int): (n: nat)
    ensures n == 0 <==> x == 0
    ensures n <= Abs(x)
    decreases Abs(x)
  {
    if x == 0 then 0 else 1 + DigitLoopCount(CDiv10(x))
  }

  /** The byte a negative number's minus sign takes. */
  function SignCount(d: int): nat { if d < 0 then 1 else 0 }

  /** The digit-count loop counts the digits `snprintf` writes, so together
      with the sign it measures the whole text of a non-zero number; for
      zero it counts nothing although the text is "0". */
  lemma {:induction false} DigitLoopCountIsTextLength(d: int)
    ensures d != 0 ==> SignCount(d) + DigitLoopCount(d) == |Text(d)|
    ensures d == 0 ==> SignCount(d) + DigitLoopCount(d) == 0 && |Text(d)| == 1
    decreases Abs(d)
  {
    if d != 0 {
      var q := CDiv10(d);
      assert Abs(q) == Abs(d) / 10;
      DigitLoopCountIsTextLength(q);
      if Abs(d) >= 10 {
        assert |Digits(Abs(d))| == |Digits(Abs(q))| + 1;
        if q < 0 { assert Text(q) == "-" + Digits(Abs(q)); }
      }
    }
  }

  /** Reading back the digits of a number gives that number. */
  lemma {:induction false} ValueOfDigits(n: nat)
    requires n > 0
    ensures Value(Digits(n)) == n
  {
    if n >= 10 {
      var s := Digits(n);
      assert s[..|s| - 1] == Digits(n / 10);
      ValueOfDigits(n / 10);
    }
  }

  /** Length of the longest prefix of decimal digits. */
  function DigitRun(s: seq<char>): (n: nat)
    ensures n <= |s| && AllDigits(s[..n])
    ensures n < |s| ==> !IsDigit(s[n])
  {
    if s != [] && IsDigit(s[0]) then 1 + DigitRun(s[1..]) else 0
  }

  /** The longest run of digits at the start, if there is one: its value
      and its length. */
  function ScanDigitRun(u: seq<char>): Option<(nat, nat)> {
    var n := DigitRun(u);
    if n == 0 then None else Some((Value(u[..n]), n))
  }

  /** The `%d` conversion of the kernel's `vsscanf` once blanks are skipped:
      an optional `-` (no `+`), then the longest run of digits, which must
      not be empty. The result is the value and the number of bytes used. */
  function ScanInt(t: seq<char>): (r: Option<(int, nat)>)
    ensures r.None? <==> !(t != [] && IsDigit(t[0])) && !(|t| > 1 && t[0] == '-' && IsDigit(t[1]))
    ensures r.Some? ==> 0 < r.value.1 <= |t| && Numeral(t[..r.value.1], r.value.0)
    ensures r.Some? && r.value.1 < |t| ==> !IsDigit(t[r.value.1])
  {
    if t != [] && t[0] == '-' then
      match ScanDigitRun(t[1..])
      case None => None
      case Some((v, n)) =>
        assert t[..n + 1][1..] == t[1..][..n];
        Some((-(v as int), n + 1))
    else
      match ScanDigitRun(t)
      case None => None
      case Some((v, n)) => Some((v as int, n))
  }

  /** A numeral `%d` accepts, denoting `v`: one or more digits, leading
      zeros allowed, after an optional minus sign. */
  predicate Numeral(t: seq<char>, v: int) {
    (t != [] && AllDigits(t) && v == Value(t)) ||
    (|t| > 1 && t[0] == '-' && AllDigits(t[1..]) && v == -(Value(t[1..]) as int))
  }

  /** The text `snprintf` writes is a numeral for the number, in the shortest
      form: no leading zero, and no minus sign on zero. */
  lemma TextIsNumeral(d: int)
    ensures Numeral(Text(d), d)
    ensures Text(d)[0] == '0' ==> Text(d) == "0"
    ensures Text(d)[0] == '-' ==> d < 0 && Text(d)[1] != '0'
  {
    if d > 0 {
      ValueOfDigits(d);
    } else if d < 0 {
      ValueOfDigits(-d);
      assert Text(d)[1..] == Digits(-d);
    } else {
      assert "0"[..0] == [];
    }
  }

  /** A numeral not followed by a digit scans as its number and uses exactly
      its bytes. */
  lemma ScanNumeral(t: seq<char>, v: int, rest: seq<char>)
    requires Numeral(t, v)
    requires rest == [] || !IsDigit(rest[0])
    ensures ScanInt(t + rest) == Some((v, |t|))
  {
    if t[0] == '-' {
      ScanMinusDigits(t[1..], Value(t[1..]), rest);
      assert t == "-" + t[1..];
    } else {
      ScanPlainDigits(t, Value(t), rest);
    }
  }

  /** Scanning the text of a number gives that number back, and uses exactly
      its text when no digit follows it. */
  lemma ScanText(d: int, rest: seq<char>)
    requires rest == [] || !IsDigit(rest[0])
    ensures ScanInt(Text(d) + rest) == Some((d, |Text(d)|))
  {
    TextIsNumeral(d);
    ScanNumeral(Text(d), d, rest);
  }

  /** Digits denoting `v`, then no digit, scan as `v`. */
  lemma ScanPlainDigits(a: seq<char>, v: nat, rest: seq<char>)
    requires a != [] && AllDigits(a) && Value(a) == v
    requires rest == [] || !IsDigit(rest[0])
    ensures ScanInt(a + rest) == Some((v as int, |a|))
  {
    ScanDigitRunOf(a, rest);
    ScanPlain(a + rest, v, |a|);
  }

  /** A minus sign and digits denoting `v`, then no digit, scan as `-v`. */
  lemma ScanMinusDigits(a: seq<char>, v: nat, rest: seq<char>)
    requires a != [] && AllDigits(a) && Value(a) == v
    requires rest == [] || !IsDigit(rest[0])
    ensures ScanInt("-" + a + rest) == Some((-(v as int), |a| + 1))
  {
    ScanDigitRunOf(a, rest);
    ScanMinus(a + rest, v, |a|);
    assert "-" + a + rest == "-" + (a + rest);
  }

  /** Without a sign the number is the digit run. */
  lemma ScanPlain(u: seq<char>, v: nat, n: nat)
    requires ScanDigitRun(u) == Some((v, n))
    ensures ScanInt(u) == Some((v as int, n))
  {
  }

  /** A minus sign negates the digit run after it. */
  lemma ScanMinus(u: seq<char>, v: nat, n: nat)
    requires ScanDigitRun(u) == Some((v, n))
    ensures ScanInt("-" + u) == Some((-(v as int), n + 1))
  {
  }

  lemma ScanDigitRunOf(a: seq<char>, rest: seq<char>)
    requires a != [] && AllDigits(a)
    requires rest == [] || !IsDigit(rest[0])
    ensures ScanDigitRun(a + rest) == Some((Value(a), |a|))
  {
    DigitRunOf(a, rest);
    assert (a + rest)[..|a|] == a;
  }

  lemma {:induction false} DigitRunOf(a: seq<char>, b: seq<char>)
    requires AllDigits(a)
    requires b == [] || !IsDigit(b[0])
    ensures DigitRun(a + b) == |a|
  {
    if a == [] {
      assert a + b == b;
    } else {
      assert (a + b)[0] == a[0] && (a + b)[1..] == a[1..] + b;
      DigitRunOf(a[1..], b);
    }
  }

  /** The text of a number is one line: it holds no newline and no NUL. */
  lemma TextIsPlain(d: int)
    ensures '\n' !in Text(d) && '\0' !in Text(d)
  {
  }
}
