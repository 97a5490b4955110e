/**
 * The command parser of `modlist_write`: `strcmp(kbuf, "cleanup\n")`, then
 * `sscanf(kbuf, "add %d %s", ...) == 1`, then `sscanf(kbuf, "remove %d %s",
 * ...) == 1` (with `%s` for the argument in the string variant).
 *
 * The kernel's `sscanf` matches the keyword byte for byte, lets the blank in
 * the format match any number of blanks (none included), converts the
 * argument, and returns 1 exactly when nothing but blanks follows it: any
 * further word would be converted by the trailing `%s`.
 */
module Scan {
  import opened Options
  import opened CChars
  import opened Decimal
  import opened ListOps

  const CleanupLine: seq<char> := "cleanup\n"
  const AddKeyword: seq<char> := "add"
  const RemoveKeyword: seq<char> := "remove"

  /** `" %d %s"` after the keyword converts exactly one item. */
  function IntArg(rest: seq<char>): Option<int> {
    var t := SkipSpace(rest);
    match ScanInt(t)
    case None => None
    case Some((v, n)) => if n <= |t| && AllSpace(t[n..]) then Some(v) else None
  }

  /** `" %s %s"` after the keyword converts exactly one item. */
  function StrArg(rest: seq<char>): Option<seq<char>> {
    var t := SkipSpace(rest);
    var n := TokenLength(t);
    if n == 0 || !AllSpace(t[n..]) then None else Some(t[..n])
  }

  /** The command an integer-variant write carries, or `None` for `-EINVAL`. */
  function ParseIntCommand(buf: seq<char>): Option<Command<int>> {
    var s := CString(buf);
    if s == CleanupLine then Some(Cleanup)
    else if AddKeyword <= s && IntArg(s[|AddKeyword|..]).Some? then Some(Add(IntArg(s[|AddKeyword|..]).value))
    else if RemoveKeyword <= s && IntArg(s[|RemoveKeyword|..]).Some? then Some(Remove(IntArg(s[|RemoveKeyword|..]).value))
    else None
  }

  /** The command a string-variant write carries, or `None` for `-EINVAL`. */
  function ParseStringCommand(buf: seq<char>): Option<Command<seq<char>>> {
    var s := CString(buf);
    if s == CleanupLine then Some(Cleanup)
    else if AddKeyword <= s && StrArg(s[|AddKeyword|..]).Some? then Some(Add(StrArg(s[|AddKeyword|..]).value))
    else if RemoveKeyword <= s && StrArg(s[|RemoveKeyword|..]).Some? then Some(Remove(StrArg(s[|RemoveKeyword|..]).value))
    else None
  }

  function Keyword<T>(c: Command<T>): seq<char>
    requires !c.Cleanup?
  {
    if c.Add? then AddKeyword else RemoveKeyword
  }

  /** What `" %d %s"` converts as exactly one item: blanks, a numeral for
      `v`, blanks. */
  ghost predicate IntArgLine(r: seq<char>, v: int) {
    exists w1, t, w2 :: AllSpace(w1) && Numeral(t, v) && AllSpace(w2) && r == w1 + t + w2
  }

  /** What `" %s %s"` converts as exactly one item: blanks, the word `a`,
      blanks. */
  ghost predicate StrArgLine(r: seq<char>, a: seq<char>) {
    IsToken(a) && exists w1, w2 :: AllSpace(w1) && AllSpace(w2) && r == w1 + a + w2
  }

  /** The C string of an accepted `add` or `remove` in the integer build: the
      keyword, then blanks, a numeral for the argument and blanks. */
  ghost predicate IntCommandLine(s: seq<char>, c: Command<int>) {
    !c.Cleanup? && Keyword(c) <= s && IntArgLine(s[|Keyword(c)|..], c.arg)
  }

  /** The same for the string build, with a word for the argument. */
  ghost predicate StringCommandLine(s: seq<char>, c: Command<seq<char>>) {
    !c.Cleanup? && Keyword(c) <= s && StrArgLine(s[|Keyword(c)|..], c.arg)
  }

  /** A write of the integer build is the command `c` exactly when its C
      string is "cleanup\n" (for `Cleanup`) or the keyword, blanks, a numeral
      for the argument and blanks (for `add` and `remove`). Every other write
      is `-EINVAL`. */
  lemma IntCommandForm(buf: seq<char>, c: Command<int>)
    ensures ParseIntCommand(buf) == Some(c) <==>
              if c.Cleanup? then CString(buf) == CleanupLine else IntCommandLine(CString(buf), c)
  {
    if !c.Cleanup? {
      if ParseIntCommand(buf) == Some(c) {
        IntCommandArg(buf, c);
        IntArgForm(CString(buf)[|Keyword(c)|..], c.arg);
      }
      if IntCommandLine(CString(buf), c) {
        IntCommandOfLine(buf, c);
      }
    }
  }

  /** The same for the string build, with a word for the argument. */
  lemma StringCommandForm(buf: seq<char>, c: Command<seq<char>>)
    ensures ParseStringCommand(buf) == Some(c) <==>
              if c.Cleanup? then CString(buf) == CleanupLine else StringCommandLine(CString(buf), c)
  {
    if !c.Cleanup? {
      if ParseStringCommand(buf) == Some(c) {
        StringCommandArg(buf, c);
        StrArgForm(CString(buf)[|Keyword(c)|..], c.arg);
      }
      if StringCommandLine(CString(buf), c) {
        StringCommandOfLine(buf, c);
      }
    }
  }

  /** An accepted `add` or `remove` is its keyword followed by one item. */
  lemma IntCommandArg(buf: seq<char>, c: Command<int>)
    requires !c.Cleanup? && ParseIntCommand(buf) == Some(c)
    ensures Keyword(c) <= CString(buf) && IntArg(CString(buf)[|Keyword(c)|..]) == Some(c.arg)
  {
  }

  lemma StringCommandArg(buf: seq<char>, c: Command<seq<char>>)
    requires !c.Cleanup? && ParseStringCommand(buf) == Some(c)
    ensures Keyword(c) <= CString(buf) && StrArg(CString(buf)[|Keyword(c)|..]) == Some(c.arg)
  {
  }

  lemma IntCommandOfLine(buf: seq<char>, c: Command<int>)
    requires IntCommandLine(CString(buf), c)
    ensures ParseIntCommand(buf) == Some(c)
  {
    var s := CString(buf);
    var r := s[|Keyword(c)|..];
    IntArgForm(r, c.arg);
    assert s == Keyword(c) + r;
    IntKeywordDispatch(c, r, buf);
  }

  lemma StringCommandOfLine(buf: seq<char>, c: Command<seq<char>>)
    requires StringCommandLine(CString(buf), c)
    ensures ParseStringCommand(buf) == Some(c)
  {
    var s := CString(buf);
    var r := s[|Keyword(c)|..];
    StrArgForm(r, c.arg);
    assert s == Keyword(c) + r;
    StringKeywordDispatch(c, r, buf);
  }

  /** `" %d %s"` converts exactly one item, `v`, from blanks, a numeral for
      `v` and blanks, and from nothing else. */
  lemma IntArgForm(r: seq<char>, v: int)
    ensures IntArg(r) == Some(v) <==> IntArgLine(r, v)
  {
    if IntArg(r) == Some(v) {
      var w1, t, w2 := IntArgSplit(r, v);
      IntArgLineOf(r, v, w1, t, w2);
    }
    if IntArgLine(r, v) {
      var w1, t, w2 :| AllSpace(w1) && Numeral(t, v) && AllSpace(w2) && r == w1 + t + w2;
      IntArgOf(v, w1, t, w2);
    }
  }

  /** `" %s %s"` on a C string converts exactly one item, `a`, from blanks,
      the word `a` and blanks, and from nothing else. */
  lemma StrArgForm(r: seq<char>, a: seq<char>)
    requires '\0' !in r
    ensures StrArg(r) == Some(a) <==> StrArgLine(r, a)
  {
    if StrArg(r) == Some(a) {
      var w1, w2 := StrArgSplit(r, a);
      StrArgLineOf(r, a, w1, w2);
    }
    if StrArgLine(r, a) {
      var w1, w2 :| AllSpace(w1) && AllSpace(w2) && r == w1 + a + w2;
      StrArgOf(a, w1, w2);
    }
  }

  lemma IntArgLineOf(r: seq<char>, v: int, w1: seq<char>, t: seq<char>, w2: seq<char>)
    requires AllSpace(w1) && Numeral(t, v) && AllSpace(w2) && r == w1 + t + w2
    ensures IntArgLine(r, v)
  {
  }

  lemma StrArgLineOf(r: seq<char>, a: seq<char>, w1: seq<char>, w2: seq<char>)
    requires IsToken(a) && AllSpace(w1) && AllSpace(w2) && r == w1 + a + w2
    ensures StrArgLine(r, a)
  {
  }

  lemma SplitInThree(r: seq<char>, k: nat, n: nat)
    requires k <= |r| && n <= |r| - k
    ensures r == r[..k] + r[k..][..n] + r[k..][n..]
  {
    assert r == r[..k] + r[k..];
    assert r[k..] == r[k..][..n] + r[k..][n..];
  }

  /** The pieces an accepted `" %d %s"` consists of. */
  lemma IntArgSplit(r: seq<char>, v: int) returns (w1: seq<char>, t: seq<char>, w2: seq<char>)
    requires IntArg(r) == Some(v)
    ensures AllSpace(w1) && Numeral(t, v) && AllSpace(w2) && r == w1 + t + w2
  {
    var u := SkipSpace(r);
    SkipSpaceSuffix(r);
    var k := |r| - |u|;
    var n := ScanInt(u).value.1;
    assert n <= |u| && Numeral(u[..n], v) && AllSpace(u[n..]);
    SplitInThree(r, k, n);
    w1, t, w2 := r[..k], u[..n], u[n..];
  }

  /** The pieces an accepted `" %s %s"` consists of. */
  lemma StrArgSplit(r: seq<char>, a: seq<char>) returns (w1: seq<char>, w2: seq<char>)
    requires '\0' !in r && StrArg(r) == Some(a)
    ensures IsToken(a) && AllSpace(w1) && AllSpace(w2) && r == w1 + a + w2
  {
    var u := SkipSpace(r);
    SkipSpaceSuffix(r);
    StrArgIsToken(r);
    var k := |r| - |u|;
    var n := TokenLength(u);
    SplitInThree(r, k, n);
    w1, w2 := r[..k], u[n..];
  }

  /** A keyword, blanks (possibly none), a numeral for `x`, blanks, and then
      the end of the C string is the command with argument `x`. */
  lemma IntCommandAccepted(c: Command<int>, w1: seq<char>, t: seq<char>, w2: seq<char>, tail: seq<char>)
    requires !c.Cleanup? && Numeral(t, c.arg)
    requires AllSpace(w1) && AllSpace(w2)
    requires tail == [] || tail[0] == '\0'
    ensures ParseIntCommand(Keyword(c) + (w1 + t + w2) + tail) == Some(c)
  {
    var r := w1 + t + w2;
    var buf := Keyword(c) + r + tail;
    assert CString(buf) == Keyword(c) + r by {
      NumeralIsToken(t, c.arg);
      NoNulIn3(w1, t, w2);
      KeywordLine(c, r, tail);
    }
    assert IntArg(r) == Some(c.arg) by { IntArgOf(c.arg, w1, t, w2); }
    IntKeywordDispatch(c, r, buf);
  }

  /** The same for the string variant, with a word in place of the number. */
  lemma StringCommandAccepted(c: Command<seq<char>>, w1: seq<char>, w2: seq<char>, tail: seq<char>)
    requires !c.Cleanup? && IsToken(c.arg)
    requires AllSpace(w1) && AllSpace(w2)
    requires tail == [] || tail[0] == '\0'
    ensures ParseStringCommand(Keyword(c) + (w1 + c.arg + w2) + tail) == Some(c)
  {
    var r := w1 + c.arg + w2;
    var buf := Keyword(c) + r + tail;
    assert CString(buf) == Keyword(c) + r by {
      NoNulIn3(w1, c.arg, w2);
      KeywordLine(c, r, tail);
    }
    assert StrArg(r) == Some(c.arg) by { StrArgOf(c.arg, w1, w2); }
    StringKeywordDispatch(c, r, buf);
  }

  /** Anything but blanks after the number makes the write fail: a second
      word after blanks (`sscanf` returns 2), or a byte that is not a digit
      right after the digits, as in "add 5x". */
  lemma IntSecondWordRejected(c: Command<int>, w1: seq<char>, t: seq<char>, w2: seq<char>, rest: seq<char>)
    requires !c.Cleanup?
    requires AllSpace(w1) && Numeral(t, c.arg) && AllSpace(w2)
    requires rest != [] && !IsSpace(rest[0]) && rest[0] != '\0'
    requires w2 != [] || !IsDigit(rest[0])
    ensures ParseIntCommand(Keyword(c) + (w1 + t + w2 + rest)) == None
  {
    var kw := Keyword(c);
    var line := w1 + t + w2;
    var r := line + CString(rest);
    assert CString(kw + (line + rest)) == kw + r by {
      NumeralIsToken(t, c.arg);
      NoNulIn3(w1, t, w2);
      assert '\0' !in kw + line;
      CStringAppend(kw + line, rest);
      assert kw + (line + rest) == (kw + line) + rest;
    }
    assert IntArg(r) == None by {
      assert CString(rest)[0] == rest[0];
      IntArgSecondWord(c.arg, w1, t, w2, CString(rest));
    }
    IntKeywordDispatch(c, r, kw + (line + rest));
  }

  /** In the string build, anything after the word and blanks makes the
      write fail. */
  lemma StringSecondWordRejected(c: Command<seq<char>>, w1: seq<char>, w2: seq<char>, rest: seq<char>)
    requires !c.Cleanup? && IsToken(c.arg)
    requires AllSpace(w1) && AllSpace(w2) && w2 != []
    requires rest != [] && !IsSpace(rest[0]) && rest[0] != '\0'
    ensures ParseStringCommand(Keyword(c) + (w1 + c.arg + w2 + rest)) == None
  {
    var kw := Keyword(c);
    var line := w1 + c.arg + w2;
    var r := line + CString(rest);
    assert CString(kw + (line + rest)) == kw + r by {
      NoNulIn3(w1, c.arg, w2);
      assert '\0' !in kw + line;
      CStringAppend(kw + line, rest);
      assert kw + (line + rest) == (kw + line) + rest;
    }
    assert StrArg(r) == None by {
      assert CString(rest)[0] == rest[0];
      StrArgSecondWord(c.arg, w1, w2, CString(rest));
    }
    StringKeywordDispatch(c, r, kw + (line + rest));
  }

  /** The C string of a keyword line. */
  lemma KeywordLine<T>(c: Command<T>, r: seq<char>, tail: seq<char>)
    requires !c.Cleanup?
    requires '\0' !in r
    requires tail == [] || tail[0] == '\0'
    ensures CString(Keyword(c) + r + tail) == Keyword(c) + r
  {
    var kw := Keyword(c);
    assert '\0' !in kw;
    TerminatedLine(kw, r, tail);
  }

  lemma TerminatedLine(kw: seq<char>, r: seq<char>, tail: seq<char>)
    requires '\0' !in kw && '\0' !in r
    requires tail == [] || tail[0] == '\0'
    ensures CString(kw + r + tail) == kw + r
  {
    assert '\0' !in kw + r;
    CStringOfTerminated(kw + r, tail);
  }

  /** How the integer parser dispatches on a line that starts with a keyword. */
  lemma IntKeywordDispatch(c: Command<int>, r: seq<char>, buf: seq<char>)
    requires !c.Cleanup?
    requires CString(buf) == Keyword(c) + r
    ensures IntArg(r).Some? && IntArg(r).value == c.arg ==> ParseIntCommand(buf) == Some(c)
    ensures IntArg(r).None? ==> ParseIntCommand(buf) == None
  {
    var s := Keyword(c) + r;
    assert s[..|Keyword(c)|] == Keyword(c) && s[|Keyword(c)|..] == r;
    assert s != CleanupLine by { assert s[0] != CleanupLine[0]; }
    if c.Remove? {
      assert !(AddKeyword <= s) by { assert s[0] != AddKeyword[0]; }
    }
  }

  /** How the string parser dispatches on a line that starts with a keyword. */
  lemma StringKeywordDispatch(c: Command<seq<char>>, r: seq<char>, buf: seq<char>)
    requires !c.Cleanup?
    requires CString(buf) == Keyword(c) + r
    ensures StrArg(r).Some? && StrArg(r).value == c.arg ==> ParseStringCommand(buf) == Some(c)
    ensures StrArg(r).None? ==> ParseStringCommand(buf) == None
  {
    var s := Keyword(c) + r;
    assert s[..|Keyword(c)|] == Keyword(c) && s[|Keyword(c)|..] == r;
    assert s != CleanupLine by { assert s[0] != CleanupLine[0]; }
    if c.Remove? {
      assert !(AddKeyword <= s) by { assert s[0] != AddKeyword[0]; }
    }
  }

  /** The argument scanner finds the numeral between the blanks. */
  lemma IntArgOf(v: int, w1: seq<char>, t: seq<char>, w2: seq<char>)
    requires AllSpace(w1) && Numeral(t, v) && AllSpace(w2)
    ensures IntArg(w1 + t + w2) == Some(v)
  {
    var u := t + w2;
    NumeralIsToken(t, v);
    SkipToWord(t, w1, w2);
    assert ScanInt(u) == Some((v, |t|)) by { ScanNumeral(t, v, w2); }
    assert u[|t|..] == w2;
  }

  /** The argument scanner rejects a numeral followed by anything that is
      not blank. */
  lemma IntArgSecondWord(v: int, w1: seq<char>, t: seq<char>, w2: seq<char>, rest: seq<char>)
    requires AllSpace(w1) && Numeral(t, v) && AllSpace(w2)
    requires rest != [] && !IsSpace(rest[0])
    requires w2 != [] || !IsDigit(rest[0])
    ensures IntArg(w1 + t + w2 + rest) == None
  {
    var u := t + (w2 + rest);
    assert SkipSpace(w1 + t + w2 + rest) == u by {
      NumeralIsToken(t, v);
      assert w1 + t + w2 + rest == w1 + t + (w2 + rest);
      SkipToWord(t, w1, w2 + rest);
    }
    assert ScanInt(u) == Some((v, |t|)) by {
      assert (w2 + rest)[0] == if w2 != [] then w2[0] else rest[0];
      ScanNumeral(t, v, w2 + rest);
    }
    assert !AllSpace(u[|t|..]) by {
      assert u[|t|..] == w2 + rest;
      assert (w2 + rest)[|w2|] == rest[0];
    }
  }

  /** A numeral holds no blank and no NUL. */
  lemma NumeralIsToken(t: seq<char>, v: int)
    requires Numeral(t, v)
    ensures IsToken(t)
  {
    if t[0] == '-' {
      assert forall i :: 1 <= i < |t| ==> t[i] == t[1..][i - 1];
    }
  }

  /** Leading blanks are skipped up to the word. */
  lemma SkipToWord(a: seq<char>, w1: seq<char>, rest: seq<char>)
    requires AllSpace(w1) && IsToken(a)
    ensures SkipSpace(w1 + a + rest) == a + rest
  {
    assert w1 + a + rest == w1 + (a + rest);
    SkipSpaceOver(w1, a + rest);
    assert (a + rest)[0] == a[0];
  }

  /** The argument scanner finds the word between the blanks. */
  lemma StrArgOf(a: seq<char>, w1: seq<char>, w2: seq<char>)
    requires IsToken(a) && AllSpace(w1) && AllSpace(w2)
    ensures StrArg(w1 + a + w2) == Some(a)
  {
    var t := a + w2;
    SkipToWord(a, w1, w2);
    TokenLengthOf(a, w2);
    assert t[|a|..] == w2 && t[..|a|] == a;
  }

  /** The argument scanner rejects a word followed by blanks and anything
      that is not blank. */
  lemma StrArgSecondWord(a: seq<char>, w1: seq<char>, w2: seq<char>, word: seq<char>)
    requires IsToken(a) && AllSpace(w1) && AllSpace(w2) && w2 != []
    requires word != [] && !IsSpace(word[0])
    ensures StrArg(w1 + a + w2 + word) == None
  {
    var t := a + (w2 + word);
    assert SkipSpace(w1 + a + w2 + word) == t by {
      assert w1 + a + w2 + word == w1 + a + (w2 + word);
      SkipToWord(a, w1, w2 + word);
    }
    assert TokenLength(t) == |a| by {
      assert (w2 + word)[0] == w2[0];
      TokenLengthOf(a, w2 + word);
    }
    assert !AllSpace(t[|a|..]) by {
      assert t[|a|..] == w2 + word;
      assert (w2 + word)[|w2|] == word[0];
    }
  }

  lemma NoNulIn3(a: seq<char>, b: seq<char>, c: seq<char>)
    requires AllSpace(a) && '\0' !in b && AllSpace(c)
    ensures '\0' !in a + b + c
  {
    NoNulInBlanks(a);
    NoNulInBlanks(c);
  }

  /** A word taken by the string variant is a non-empty word without blanks
      or NUL, shorter than the buffer it came from. */
  lemma StringArgIsToken(buf: seq<char>)
    ensures ParseStringCommand(buf).Some? && !ParseStringCommand(buf).value.Cleanup? ==>
              IsToken(ParseStringCommand(buf).value.arg) &&
              |ParseStringCommand(buf).value.arg| + |AddKeyword| <= |buf|
  {
    var s := CString(buf);
    if AddKeyword <= s && StrArg(s[|AddKeyword|..]).Some? {
      StrArgIsToken(s[|AddKeyword|..]);
    } else if RemoveKeyword <= s && StrArg(s[|RemoveKeyword|..]).Some? {
      StrArgIsToken(s[|RemoveKeyword|..]);
    }
  }

  lemma StrArgIsToken(rest: seq<char>)
    requires '\0' !in rest
    requires StrArg(rest).Some?
    ensures IsToken(StrArg(rest).value) && |StrArg(rest).value| <= |rest|
  {
    var t := SkipSpace(rest);
    SkipSpaceSuffix(rest);
    TokenHasNoSpace(t);
    var n := TokenLength(t);
    assert forall i :: 0 <= i < n ==> t[..n][i] == rest[|rest| - |t| + i];
  }

  lemma NoNulInBlanks(w: seq<char>)
    requires AllSpace(w)
    ensures '\0' !in w
  {
  }

  lemma {:induction false} TokenLengthOf(a: seq<char>, b: seq<char>)
    requires IsToken(a)
    requires b == [] || IsSpace(b[0])
    ensures TokenLength(a + b) == |a|
  {
    if |a| == 1 {
      assert (a + b)[1..] == b;
    } else {
      assert (a + b)[0] == a[0] && (a + b)[1..] == a[1..] + b;
      assert IsToken(a[1..]) by {
        assert forall i :: 0 <= i < |a[1..]| ==> a[1..][i] == a[i + 1];
      }
      TokenLengthOf(a[1..], b);
    }
  }
}
