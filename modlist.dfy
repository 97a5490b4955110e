/**
 * The module's state and its /proc entry points. `mylist` is a class whose
 * `items` field is the sequence of node data from head to tail; the two
 * build variants (`int` nodes, and `char *` nodes under `PARTE_OPCIONAL`)
 * are two classes. Reads and writes take the user buffer as a value and
 * return the new file offset.
 */
module ModList {
  import opened Options
  import opened CChars
  import opened Decimal
  import opened ListOps
  import opened Scan
  import opened ReadFormat

  const MAX_CHARS: nat := 50
  const MAX_DIGS: nat := 128
  const ENOSPC: int := 28
  const EINVAL: int := 22

  /** `snprintf(kbuf + at, ..., "%d", ...)` or `strcpy(kbuf + at, ...)`:
      the text lands at `at`, followed by its NUL, and the bytes before `at`
      and after the NUL stay as they were. */
  method PutText(kbuf: array<char>, at: nat, t: seq<char>)
    requires at + |t| < kbuf.Length
    modifies kbuf
    ensures kbuf[..at] == old(kbuf[..at])
    ensures kbuf[at..at + |t| + 1] == t + ['\0']
    ensures kbuf[at + |t| + 1..] == old(kbuf[at + |t| + 1..])
  {
    forall j | at <= j <= at + |t| {
      kbuf[j] := if j < at + |t| then t[j - at] else '\0';
    }
  }

  /** After a text and its NUL are stored at `at` behind `prefix`, a
      newline written `n` bytes further keeps the first `n` bytes of the
      text as one line. */
  lemma StoreLine(b: seq<char>, at: nat, t: seq<char>, n: nat, prefix: seq<char>)
    requires n <= |t| && at + |t| < |b|
    requires b[..at] == prefix && b[at..at + |t| + 1] == t + ['\0']
    ensures b[at + n := '\n'][..at + n + 1] == prefix + t[..n] + "\n"
  {
  }

  /** What the integer read path adds to `nr_bytes` for one element before
      its newline: one for a minus sign and one per pass of the division
      loop, which is the length of the record that survives in the buffer. */
  method RecordLength(d: int) returns (n: nat)
    ensures n == |IntRecord(d)|
  {
    var data := d;
    n := 0;
    if data < 0 {
      n := n + 1;
    }
    while data != 0
      invariant n + DigitLoopCount(data) == SignCount(d) + DigitLoopCount(d)
      decreases Abs(data)
    {
      data := CDiv10(data);
      n := n + 1;
    }
    DigitLoopCountIsTextLength(d);
  }

  /** One pass of the integer read loop with `nr_bytes == at`: `snprintf`
      writes the text of `d`, the sign test and the digit-count loop advance
      `nr_bytes` over the part of it that is kept, and a newline follows. */
  method StoreIntRecord(kbuf: array<char>, at: nat, d: int) returns (next: nat)
    requires at + |IntRecord(d)| + 1 < kbuf.Length
    modifies kbuf
    ensures next == at + |IntRecord(d)| + 1
    ensures kbuf[..next] == old(kbuf[..at]) + IntRecord(d) + "\n"
  {
    PutText(kbuf, at, Text(d));
    var n := RecordLength(d);
    IntRecordIsKeptText(d);
    StoreLine(kbuf[..], at, Text(d), n, old(kbuf[..at]));
    kbuf[at + n] := '\n';
    next := at + n + 1;
  }

  /** One pass of the string read loop with `nr_bytes == at`: `strcpy`
      copies the node's string, `nr_bytes` advances by its `strlen`, and a
      newline follows. */
  method StoreStringRecord(kbuf: array<char>, at: nat, data: seq<char>) returns (next: nat)
    requires at + |CString(data)| + 1 < kbuf.Length
    modifies kbuf
    ensures next == at + |CString(data)| + 1
    ensures kbuf[..next] == old(kbuf[..at]) + CString(data) + "\n"
  {
    PutText(kbuf, at, CString(data));
    var n := |CString(data)|;
    assert CString(data)[..n] == CString(data);
    StoreLine(kbuf[..], at, CString(data), n, old(kbuf[..at]));
    kbuf[at + n] := '\n';
    next := at + n + 1;
  }

  /** The `list_for_each` loop of the integer read path: the records of
      `s` one after the other from the start of `kbuf`, with `nr_bytes`
      ending at their length. */
  method StoreIntRecords(kbuf: array<char>, s: seq<int>) returns (nrBytes: nat)
    requires |Records(s, IntRecord)| < kbuf.Length
    modifies kbuf
    ensures nrBytes == |Records(s, IntRecord)|
    ensures kbuf[..nrBytes] == Records(s, IntRecord)
  {
    nrBytes := 0;
    var i := 0;
    while i < |s|
      invariant i <= |s|
      invariant nrBytes == |Records(s[..i], IntRecord)| <= |Records(s, IntRecord)|
      invariant kbuf[..nrBytes] == Records(s[..i], IntRecord)
    {
      ghost var sofar := Records(s[..i + 1], IntRecord);
      assert sofar == kbuf[..nrBytes] + IntRecord(s[i]) + "\n" && |sofar| <= |Records(s, IntRecord)| by {
        RecordsPrefix(s, i, IntRecord);
      }
      nrBytes := StoreIntRecord(kbuf, nrBytes, s[i]);
      assert kbuf[..nrBytes] == sofar;
      i := i + 1;
    }
    assert s[..i] == s;
  }

  /** The `list_for_each` loop of the string read path: the records of
      `s` one after the other from the start of `kbuf`, with `nr_bytes`
      ending at their length. */
  method StoreStringRecords(kbuf: array<char>, s: seq<seq<char>>) returns (nrBytes: nat)
    requires |Records(s, CString)| < kbuf.Length
    modifies kbuf
    ensures nrBytes == |Records(s, CString)|
    ensures kbuf[..nrBytes] == Records(s, CString)
  {
    nrBytes := 0;
    var i := 0;
    while i < |s|
      invariant i <= |s|
      invariant nrBytes == |Records(s[..i], CString)| <= |Records(s, CString)|
      invariant kbuf[..nrBytes] == Records(s[..i], CString)
    {
      ghost var sofar := Records(s[..i + 1], CString);
      assert sofar == kbuf[..nrBytes] + CString(s[i]) + "\n" && |sofar| <= |Records(s, CString)| by {
        RecordsPrefix(s, i, CString);
      }
      nrBytes := StoreStringRecord(kbuf, nrBytes, s[i]);
      assert kbuf[..nrBytes] == sofar;
      i := i + 1;
    }
    assert s[..i] == s;
  }

  /** A list of `int` nodes (the default build). */
  class IntModList {
    /** The data of the nodes of `mylist`, head to tail. */
    var items: seq<int>

    /** `INIT_LIST_HEAD(&mylist)`: the list starts empty. */
    constructor ()
      ensures items == []
    {
      items := [];
    }

    /** `add`: a new node at the tail. */
    method Add(num: int)
      modifies this
      ensures items == old(items) + [num]
    {
      items := items + [num];
    }

    /** `remove`: walks the list once and unlinks every node equal to
        `num`; `pos` is the index of the node the walk is at. */
    method Remove(num: int)
      modifies this
      ensures items == Without(old(items), num)
    {
      ghost var orig := items;
      ghost var i := 0;
      var cur, pos := items, 0;
      while pos < |cur|
        invariant 0 <= i <= |orig|
        invariant cur == Without(orig[..i], num) + orig[i..]
        invariant pos == |Without(orig[..i], num)|
        decreases |orig| - i
      {
        RemoveWalkStep(orig, i, num, cur, pos);
        if cur[pos] == num {
          cur := cur[..pos] + cur[pos + 1..];
        } else {
          pos := pos + 1;
        }
        i := i + 1;
      }
      assert orig[..i] == orig;
      items := cur;
    }

    /** `cleanup`: unlinks the nodes one by one from the head. */
    method Cleanup()
      modifies this
      ensures items == []
    {
      while items != []
        decreases |items|
      {
        items := items[1..];
      }
    }

    /** `modlist_read` for a read of at most `len` bytes at offset `off`:
        end of file once the offset is positive, `-ENOSPC` when the reader's
        buffer is too small, otherwise every record and the NUL, with the
        offset moved past them. The records must fit in `kbuf`. */
    method Read(len: nat, off: int) returns (ret: int, out: seq<char>, newOff: int)
      requires off <= 0 ==> |Serialised(items, IntRecord)| <= MAX_DIGS
      ensures off > 0 ==> ret == 0 && out == [] && newOff == off
      ensures off <= 0 && len < |Serialised(items, IntRecord)| ==>
                ret == -ENOSPC && out == [] && newOff == off
      ensures off <= 0 && len >= |Serialised(items, IntRecord)| ==>
                ret == |out| && out == Serialised(items, IntRecord) && newOff == off + ret
    {
      var kbuf := new char[MAX_DIGS];
      if off > 0 {
        return 0, [], off;
      }
      var nrBytes := StoreIntRecords(kbuf, items);
      kbuf[nrBytes] := '\0';
      nrBytes := nrBytes + 1;
      if len < nrBytes {
        return -ENOSPC, [], off;
      }
      out := kbuf[..nrBytes];
      ret := nrBytes;
      newOff := off + nrBytes;
    }

    /** `modlist_write` of the bytes `buf` at offset `off`: `-ENOSPC` for
        more than `MAX_CHARS` bytes, `-EINVAL` when the bytes are not a
        command, otherwise the command is applied to the list and the whole
        write is consumed. */
    method Write(buf: seq<char>, off: int) returns (ret: int, newOff: int)
      modifies this
      ensures |buf| > MAX_CHARS ==> ret == -ENOSPC && newOff == off && items == old(items)
      ensures |buf| <= MAX_CHARS && ParseIntCommand(buf).None? ==>
                ret == -EINVAL && newOff == off && items == old(items)
      ensures |buf| <= MAX_CHARS && ParseIntCommand(buf).Some? ==>
                ret == |buf| && newOff == off + |buf| &&
                items == Apply(old(items), ParseIntCommand(buf).value)
    {
      if |buf| > MAX_CHARS {
        return -ENOSPC, off;
      }
      var kbuf := buf + ['\0'];
      CStringTerminate(buf);
      assert ParseIntCommand(kbuf) == ParseIntCommand(buf);
      match ParseIntCommand(kbuf) {
        case None =>
          return -EINVAL, off;
        case Some(Cleanup) =>
          Cleanup();
        case Some(Add(num)) =>
          Add(num);
        case Some(Remove(num)) =>
          Remove(num);
      }
      ret, newOff := |buf|, off + |buf|;
    }
  }

  /** A C string that fits a node's `MAX_CHARS` buffer with its NUL. */
  predicate Fits(t: seq<char>) {
    '\0' !in t && |t| < MAX_CHARS
  }

  predicate AllFit(s: seq<seq<char>>) {
    forall i :: 0 <= i < |s| ==> Fits(s[i])
  }

  /** No string of the list holds a newline. */
  predicate OneLine(s: seq<seq<char>>) {
    forall i :: 0 <= i < |s| ==> '\n' !in s[i]
  }

  /** Removing strings keeps every remaining one fitting, and one line. */
  lemma AllFitWithout(s: seq<seq<char>>, x: seq<char>)
    requires AllFit(s)
    ensures AllFit(Without(s, x))
    ensures OneLine(s) ==> OneLine(Without(s, x))
  {
    var r := Without(s, x);
    assert forall k :: 0 <= k < |r| ==> r[k] in s;
  }

  /** One step of `removeString`'s walk, with the test written as the
      `strcmp` of the two C strings. */
  lemma StrcmpWalkStep(orig: seq<seq<char>>, i: nat, str: seq<char>, cur: seq<seq<char>>, pos: nat)
    requires i < |orig| && AllFit(orig) && '\0' !in str
    requires cur == Without(orig[..i], str) + orig[i..] && pos == |Without(orig[..i], str)|
    ensures pos < |cur|
    ensures CString(cur[pos]) == CString(str) ==>
              cur[..pos] + cur[pos + 1..] == Without(orig[..i + 1], str) + orig[i + 1..] &&
              pos == |Without(orig[..i + 1], str)|
    ensures CString(cur[pos]) != CString(str) ==>
              cur == Without(orig[..i + 1], str) + orig[i + 1..] &&
              pos + 1 == |Without(orig[..i + 1], str)|
  {
    RemoveWalkStep(orig, i, str, cur, pos);
    CStringEqual(orig[i], str);
  }

  /** A list of string nodes (the `PARTE_OPCIONAL` build). */
  class StringModList {
    /** The strings of the nodes of `mylist`, head to tail. */
    var items: seq<seq<char>>

    /** Every node holds a C string that fits its `MAX_CHARS` buffer. */
    ghost predicate Valid()
      reads this
    {
      AllFit(items)
    }

    /** Every node's string is one line: it holds no newline, so the read
        shows it as exactly one record. Every word a write adds is one. */
    ghost predicate OneLineEach()
      reads this
    {
      OneLine(items)
    }

    /** `INIT_LIST_HEAD(&mylist)`: the list starts empty. */
    constructor ()
      ensures items == [] && Valid() && OneLineEach()
    {
      items := [];
    }

    /** `addString`: a new node at the tail holding a copy of `str`. */
    method AddString(str: seq<char>)
      requires Valid() && '\0' !in str && |str| < MAX_CHARS
      modifies this
      ensures Valid() && items == old(items) + [str]
    {
      items := items + [str];
    }

    /** `removeString`: walks the list once and unlinks every node whose
        string compares equal to `str` under `strcmp`. */
    method RemoveString(str: seq<char>)
      requires Valid() && '\0' !in str
      modifies this
      ensures Valid() && items == Without(old(items), str)
      ensures old(OneLineEach()) ==> OneLineEach()
    {
      ghost var orig := items;
      ghost var i := 0;
      var cur, pos := items, 0;
      while pos < |cur|
        invariant 0 <= i <= |orig|
        invariant cur == Without(orig[..i], str) + orig[i..]
        invariant pos == |Without(orig[..i], str)|
        decreases |orig| - i
      {
        StrcmpWalkStep(orig, i, str, cur, pos);
        var same := CString(cur[pos]) == CString(str);
        if same {
          cur := cur[..pos] + cur[pos + 1..];
        } else {
          pos := pos + 1;
        }
        i := i + 1;
      }
      assert orig[..i] == orig;
      AllFitWithout(orig, str);
      items := cur;
    }

    /** `cleanupString`: unlinks the nodes one by one from the head. */
    method CleanupString()
      modifies this
      ensures Valid() && OneLineEach() && items == []
    {
      while items != []
        decreases |items|
      {
        items := items[1..];
      }
    }

    /** `modlist_read` in the string build: as for integers, each record
        being the node's C string. */
    method Read(len: nat, off: int) returns (ret: int, out: seq<char>, newOff: int)
      requires off <= 0 ==> |Serialised(items, CString)| <= MAX_DIGS
      ensures off > 0 ==> ret == 0 && out == [] && newOff == off
      ensures off <= 0 && len < |Serialised(items, CString)| ==>
                ret == -ENOSPC && out == [] && newOff == off
      ensures off <= 0 && len >= |Serialised(items, CString)| ==>
                ret == |out| && out == Serialised(items, CString) && newOff == off + ret
      ensures off <= 0 && len >= |Serialised(items, CString)| && Valid() && OneLineEach() ==>
                Deserialise(out, ParseStringRecord) == Some(items)
    {
      var kbuf := new char[MAX_DIGS];
      if off > 0 {
        return 0, [], off;
      }
      var nrBytes := StoreStringRecords(kbuf, items);
      kbuf[nrBytes] := '\0';
      nrBytes := nrBytes + 1;
      if len < nrBytes {
        return -ENOSPC, [], off;
      }
      out := kbuf[..nrBytes];
      ret := nrBytes;
      newOff := off + nrBytes;
      if Valid() && OneLineEach() {
        StringRoundTrip(items);
      }
    }

    /** `modlist_write` in the string build: as for integers, with a word
        for the argument. A word taken from a write fits a node. */
    method Write(buf: seq<char>, off: int) returns (ret: int, newOff: int)
      requires Valid()
      modifies this
      ensures Valid()
      ensures old(OneLineEach()) ==> OneLineEach()
      ensures |buf| > MAX_CHARS ==> ret == -ENOSPC && newOff == off && items == old(items)
      ensures |buf| <= MAX_CHARS && ParseStringCommand(buf).None? ==>
                ret == -EINVAL && newOff == off && items == old(items)
      ensures |buf| <= MAX_CHARS && ParseStringCommand(buf).Some? ==>
                ret == |buf| && newOff == off + |buf| &&
                items == Apply(old(items), ParseStringCommand(buf).value)
    {
      if |buf| > MAX_CHARS {
        return -ENOSPC, off;
      }
      var kbuf := buf + ['\0'];
      CStringTerminate(buf);
      assert ParseStringCommand(kbuf) == ParseStringCommand(buf);
      StringArgIsToken(kbuf);
      match ParseStringCommand(kbuf) {
        case None =>
          return -EINVAL, off;
        case Some(Cleanup) =>
          CleanupString();
        case Some(Add(str)) =>
          assert '\n' !in str by { assert IsSpace('\n'); }
          AddString(str);
        case Some(Remove(str)) =>
          RemoveString(str);
      }
      ret, newOff := |buf|, off + |buf|;
    }
  }
}
