/**
 * The bytes `modlist_read` hands to the reader: one record per list element,
 * in list order, each followed by '\n', and one terminating NUL.
 */
module ReadFormat {
  import opened Options
  import opened CChars
  import opened Decimal

  /** The record the integer read leaves for `d`: its decimal text, and
      nothing for zero, so that zero reads as an empty line. */
  function IntRecord(d: int): seq<char> {
    if d == 0 then [] else Text(d)
  }

  /** The integer read path keeps as many bytes of `snprintf`'s text for `d`
      as the sign test and the digit-count loop add to `nr_bytes`; the '\n'
      that follows overwrites the byte after them. What is kept is exactly
      the record. */
  lemma IntRecordIsKeptText(d: int)
    ensures SignCount(d) + DigitLoopCount(d) <= |Text(d)|
    ensures IntRecord(d) == Text(d)[..SignCount(d) + DigitLoopCount(d)]
  {
    DigitLoopCountIsTextLength(d);
  }

  /** The records of a list, each rendered and followed by a newline. */
  function Records<T>(s: seq<T>, render: T -> seq<char>): seq<char> {
    if s == [] then [] else Records(s[..|s| - 1], render) + render(s[|s| - 1]) + "\n"
  }

  /** Every element takes at least its newline, the empty list reads as
      nothing, and any other list ends with a newline. */
  lemma {:induction false} RecordsShape<T>(s: seq<T>, render: T -> seq<char>)
    ensures |Records(s, render)| >= |s|
    ensures Records(s, render) == [] <==> s == []
    ensures s != [] ==> Records(s, render)[|Records(s, render)| - 1] == '\n'
  {
    if s != [] {
      RecordsShape(s[..|s| - 1], render);
    }
  }

  /** The whole read: the records and one terminating NUL, one byte longer
      than the records. */
  function Serialised<T>(s: seq<T>, render: T -> seq<char>): (r: seq<char>)
    ensures |r| == |Records(s, render)| + 1 && r[|r| - 1] == '\0'
  {
    Records(s, render) + ['\0']
  }

  /** The records of two lists one after the other are the records of the
      concatenated list. */
  lemma {:induction false} RecordsAppend<T>(a: seq<T>, b: seq<T>, render: T -> seq<char>)
    ensures Records(a + b, render) == Records(a, render) + Records(b, render)
  {
    if b == [] {
      assert a + b == a;
    } else {
      assert (a + b)[..|a + b| - 1] == a + b[..|b| - 1];
      RecordsAppend(a, b[..|b| - 1], render);
    }
  }

  /** The first record comes first. */
  lemma RecordsCons<T>(s: seq<T>, render: T -> seq<char>)
    requires s != []
    ensures Records(s, render) == render(s[0]) + "\n" + Records(s[1..], render)
  {
    assert s == [s[0]] + s[1..];
    RecordsAppend([s[0]], s[1..], render);
    assert Records([s[0]], render) == Records([], render) + render(s[0]) + "\n";
  }

  /** The records of the first `i + 1` elements extend those of the first
      `i` by one line, and are no longer than the records of the whole list:
      the step of a loop that stores the records one by one. */
  lemma RecordsPrefix<T>(s: seq<T>, i: nat, render: T -> seq<char>)
    requires i < |s|
    ensures Records(s[..i + 1], render) == Records(s[..i], render) + render(s[i]) + "\n"
    ensures |Records(s[..i + 1], render)| <= |Records(s, render)|
  {
    assert s[..i + 1][..i] == s[..i];
    assert s[..i + 1] + s[i + 1..] == s;
    RecordsAppend(s[..i + 1], s[i + 1..], render);
  }

  /** The sum of `strlen` over a list of strings. */
  function StrlenSum(s: seq<seq<char>>): nat {
    if s == [] then 0 else StrlenSum(s[..|s| - 1]) + |CString(s[|s| - 1])|
  }

  /** In the string variant `nr_bytes` ends as the sum of `strlen + 1` over
      the elements, plus one for the NUL. */
  lemma {:induction false} StringReadLength(s: seq<seq<char>>)
    ensures |Serialised(s, CString)| == StrlenSum(s) + |s| + 1
  {
    if s != [] {
      StringReadLength(s[..|s| - 1]);
    }
  }

  /** The sum of the bytes the integer read path counts for each element:
      the sign, one per digit-loop pass, and the newline. */
  function ReadCount(s: seq<int>): nat {
    if s == [] then 0 else ReadCount(s[..|s| - 1]) + SignCount(s[|s| - 1]) + DigitLoopCount(s[|s| - 1]) + 1
  }

  /** In the integer variant `nr_bytes` ends as that count plus one. */
  lemma {:induction false} IntReadLength(s: seq<int>)
    ensures |Serialised(s, IntRecord)| == ReadCount(s) + 1
  {
    if s != [] {
      IntReadLength(s[..|s| - 1]);
      DigitLoopCountIsTextLength(s[|s| - 1]);
    }
  }

  /** The length of the first line. */
  function LineLength(b: seq<char>): (k: nat)
    ensures k <= |b| && (k < |b| ==> b[k] == '\n')
  {
    if b == [] || b[0] == '\n' then 0 else 1 + LineLength(b[1..])
  }

  /** Splits records back into elements, `None` if a line does not parse or
      the last one lacks its newline. */
  function DecodeRecords<T>(b: seq<char>, parse: seq<char> -> Option<T>): Option<seq<T>>
    decreases |b|
  {
    if b == [] then Some([])
    else
      var k := LineLength(b);
      if k == |b| then None
      else match (parse(b[..k]), DecodeRecords(b[k + 1..], parse))
        case (Some(x), Some(xs)) => Some([x] + xs)
        case _ => None
  }

  /** Reads a whole read result back. */
  function Deserialise<T>(bytes: seq<char>, parse: seq<char> -> Option<T>): Option<seq<T>> {
    if bytes != [] && bytes[|bytes| - 1] == '\0' then DecodeRecords(bytes[..|bytes| - 1], parse) else None
  }

  /** An integer line: empty for zero, otherwise its decimal text. */
  function ParseIntRecord(r: seq<char>): Option<int> {
    if r == [] then Some(0)
    else match ScanInt(r)
      case Some((v, n)) => if n == |r| then Some(v) else None
      case None => None
  }

  /** A string line is the string itself. */
  function ParseStringRecord(r: seq<char>): Option<seq<char>> {
    Some(r)
  }

  lemma {:induction false} LineLengthOf(a: seq<char>, rest: seq<char>)
    requires '\n' !in a
    ensures LineLength(a + "\n" + rest) == |a|
  {
    if a == [] {
      assert a + "\n" + rest == "\n" + rest;
    } else {
      assert (a + "\n" + rest)[0] == a[0];
      assert (a + "\n" + rest)[1..] == a[1..] + "\n" + rest;
      LineLengthOf(a[1..], rest);
    }
  }

  /** Every rendering is a single line that parses back to its element. */
  predicate LinesParseBack<T(==)>(s: seq<T>, render: T -> seq<char>, parse: seq<char> -> Option<T>) {
    forall i :: 0 <= i < |s| ==> '\n' !in render(s[i]) && parse(render(s[i])) == Some(s[i])
  }

  /** Records can be read back whenever every rendering is a single line
      that parses back to its element. */
  lemma RecordsRoundTrip<T>(s: seq<T>, render: T -> seq<char>, parse: seq<char> -> Option<T>)
    requires LinesParseBack(s, render, parse)
    ensures DecodeRecords(Records(s, render), parse) == Some(s)
  {
    RecordsRoundTripFrom(s, 0, render, parse);
    assert s[0..] == s;
  }

  /** The round trip of the records from element `k` on. */
  lemma {:induction false} RecordsRoundTripFrom<T>(s: seq<T>, k: nat, render: T -> seq<char>, parse: seq<char> -> Option<T>)
    requires k <= |s| && LinesParseBack(s, render, parse)
    ensures DecodeRecords(Records(s[k..], render), parse) == Some(s[k..])
    decreases |s| - k
  {
    if k < |s| {
      var x, xs := s[k], s[k + 1..];
      var b := Records(s[k..], render);
      assert b == render(x) + "\n" + Records(xs, render) by {
        assert s[k..][0] == x && s[k..][1..] == xs;
        RecordsCons(s[k..], render);
      }
      assert DecodeRecords(b, parse) == Some([x] + xs) by {
        RecordsRoundTripFrom(s, k + 1, render, parse);
        DecodeLine(render(x), Records(xs, render), parse, x, xs);
      }
      assert [x] + xs == s[k..];
    }
  }

  /** A first line that parses, followed by lines that decode, decodes. */
  lemma DecodeLine<T>(a: seq<char>, rest: seq<char>, parse: seq<char> -> Option<T>, x: T, xs: seq<T>)
    requires '\n' !in a && parse(a) == Some(x) && DecodeRecords(rest, parse) == Some(xs)
    ensures DecodeRecords(a + "\n" + rest, parse) == Some([x] + xs)
  {
    LineLengthOf(a, rest);
    var b := a + "\n" + rest;
    assert b[..|a|] == a && b[|a| + 1..] == rest;
  }

  /** A read of the integer list reads back as the list, zeros included. */
  lemma IntRoundTrip(s: seq<int>)
    ensures Deserialise(Serialised(s, IntRecord), ParseIntRecord) == Some(s)
  {
    forall i | 0 <= i < |s|
      ensures '\n' !in IntRecord(s[i]) && ParseIntRecord(IntRecord(s[i])) == Some(s[i])
    {
      TextIsPlain(s[i]);
      if s[i] != 0 {
        ScanText(s[i], []);
        assert Text(s[i]) + [] == Text(s[i]);
      }
    }
    RecordsRoundTrip(s, IntRecord, ParseIntRecord);
    assert Serialised(s, IntRecord)[..|Serialised(s, IntRecord)| - 1] == Records(s, IntRecord);
  }

  /** A read of the string list reads back as the list, provided no string
      holds a newline or a NUL (a word taken by the write path holds none). */
  lemma StringRoundTrip(s: seq<seq<char>>)
    requires forall i :: 0 <= i < |s| ==> '\n' !in s[i] && '\0' !in s[i]
    ensures Deserialise(Serialised(s, CString), ParseStringRecord) == Some(s)
  {
    forall i | 0 <= i < |s|
      ensures '\n' !in CString(s[i]) && ParseStringRecord(CString(s[i])) == Some(s[i])
    {
      CStringOfTerminated(s[i], []);
      assert s[i] + [] == s[i];
    }
    RecordsRoundTrip(s, CString, ParseStringRecord);
    assert Serialised(s, CString)[..|Serialised(s, CString)| - 1] == Records(s, CString);
  }

  /** A list holding only zero reads as one empty line and the NUL. */
  lemma ZeroReadsEmpty()
    ensures Serialised([0], IntRecord) == "\n" + ['\0']
  {
  }
}
