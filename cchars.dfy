/** Option type shared by the parsers. */
module Options {
  datatype Option<+T> = None | Some(value: T)
}

/**
 * C-string and character-class helpers shared by the /proc read and write
 * paths. A `char` stands for one byte of a kernel or user buffer.
 */
module CChars {

  /** The kernel's `isspace`: blank, the control characters tab through
      carriage return (tab, newline, vertical tab, form feed, carriage
      return), and byte 0xA0, which the kernel's ctype table also classes
      as a space. */
  predicate IsSpace(c: char) {
    c == ' ' || ('\t' <= c <= '\r') || c == 0xA0 as char
  }

  predicate AllSpace(s: seq<char>) {
    forall i :: 0 <= i < |s| ==> IsSpace(s[i])
  }

  /** The C string held in a buffer: its bytes up to the first NUL, which is
      what `strlen` counts, `strcpy` copies and `strcmp` and `sscanf` read. */
  function CString(buf: seq<char>): (s: seq<char>)
    ensures |s| <= |buf| && '\0' !in s
  {
    if buf == [] || buf[0] == '\0' then [] else [buf[0]] + CString(buf[1..])
  }

  /** The C string is the part of the buffer before its first NUL, or the
      whole buffer when there is none. */
  lemma {:induction false} CStringIsPrefix(buf: seq<char>)
    ensures CString(buf) == buf[..|CString(buf)|]
    ensures |CString(buf)| < |buf| ==> buf[|CString(buf)|] == '\0'
  {
    if buf != [] && buf[0] != '\0' {
      CStringIsPrefix(buf[1..]);
      assert buf[..|CString(buf)|] == [buf[0]] + buf[1..][..|CString(buf[1..])|];
    }
  }

  /** What the kernel's `skip_spaces` leaves: the input after its longest
      all-blank prefix. */
  function SkipSpace(s: seq<char>): (r: seq<char>)
    ensures |r| <= |s|
    ensures r == [] || !IsSpace(r[0])
  {
    if s != [] && IsSpace(s[0]) then SkipSpace(s[1..]) else s
  }

  /** `skip_spaces` drops blanks only: what it leaves is a suffix of its
      input, and what it drops is all blank. */
  lemma {:induction false} SkipSpaceSuffix(s: seq<char>)
    ensures s[|s| - |SkipSpace(s)|..] == SkipSpace(s)
    ensures AllSpace(s[..|s| - |SkipSpace(s)|])
  {
    if s != [] && IsSpace(s[0]) {
      SkipSpaceSuffix(s[1..]);
      var k := |s| - |SkipSpace(s)|;
      assert s[k..] == s[1..][k - 1..];
      assert forall i :: 1 <= i < k ==> s[..k][i] == s[1..][..k - 1][i - 1];
    }
  }

  /** Length of the longest prefix without a blank: the field `%s` copies. */
  function TokenLength(s: seq<char>): (n: nat)
    ensures n <= |s|
    ensures n < |s| ==> IsSpace(s[n])
  {
    if s != [] && !IsSpace(s[0]) then 1 + TokenLength(s[1..]) else 0
  }

  /** The field `%s` copies holds no blank. */
  lemma {:induction false} TokenHasNoSpace(s: seq<char>)
    ensures forall i :: 0 <= i < TokenLength(s) ==> !IsSpace(s[i])
  {
    if s != [] && !IsSpace(s[0]) {
      TokenHasNoSpace(s[1..]);
      assert forall i :: 1 <= i < TokenLength(s) ==> s[i] == s[1..][i - 1];
    }
  }

  /** A word as `%s` yields it inside a C string: non-empty, no blank, no NUL. */
  predicate IsToken(t: seq<char>) {
    t != [] && '\0' !in t && forall i :: 0 <= i < |t| ==> !IsSpace(t[i])
  }

  /** Blanks in front of a string make no difference to `skip_spaces`. */
  lemma {:induction false} SkipSpaceOver(w: seq<char>, s: seq<char>)
    requires AllSpace(w)
    ensures SkipSpace(w + s) == SkipSpace(s)
  {
    if w != [] {
      assert (w + s)[0] == w[0] && (w + s)[1..] == w[1..] + s;
      SkipSpaceOver(w[1..], s);
    } else {
      assert w + s == s;
    }
  }

  /** A string that ends where a NUL or the buffer ends is unchanged by
      reading it back as a C string; bytes after the NUL are ignored. */
  lemma {:induction false} CStringOfTerminated(s: seq<char>, tail: seq<char>)
    requires '\0' !in s
    requires tail == [] || tail[0] == '\0'
    ensures CString(s + tail) == s
  {
    if s != [] {
      assert (s + tail)[1..] == s[1..] + tail;
      CStringOfTerminated(s[1..], tail);
    }
  }

  /** Reading a C string through a NUL-free prefix. */
  lemma {:induction false} CStringAppend(a: seq<char>, b: seq<char>)
    requires '\0' !in a
    ensures CString(a + b) == a + CString(b)
  {
    if a != [] {
      assert (a + b)[0] == a[0] && (a + b)[1..] == a[1..] + b;
      CStringAppend(a[1..], b);
      assert a == [a[0]] + a[1..];
    } else {
      assert a + b == b;
    }
  }

  /** Storing a NUL right after the bytes does not change the C string they
      hold: `kbuf[len] = '\0'` only bounds it. */
  lemma {:induction false} CStringTerminate(buf: seq<char>)
    ensures CString(buf + ['\0']) == CString(buf)
  {
    if buf == [] {
      assert buf + ['\0'] == ['\0'];
    } else {
      assert (buf + ['\0'])[0] == buf[0] && (buf + ['\0'])[1..] == buf[1..] + ['\0'];
      CStringTerminate(buf[1..]);
    }
  }

  /** `strcmp(a, b) == 0` on two NUL-free strings is equality. */
  lemma {:induction false} CStringEqual(a: seq<char>, b: seq<char>)
    requires '\0' !in a && '\0' !in b
    ensures CString(a) == CString(b) <==> a == b
  {
    CStringOfTerminated(a, []);
    CStringOfTerminated(b, []);
    assert a + [] == a && b + [] == b;
  }
}
