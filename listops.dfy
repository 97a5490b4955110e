/**
 * The list operations of the module on the abstract list: add at the tail,
 * remove every occurrence, clean up. A list is the sequence of node data in
 * `mylist` order.
 */
module ListOps {

  /** The three commands `modlist_write` accepts. */
  datatype Command<T> = Cleanup | Add(arg: T) | Remove(arg: T)

  /** The list without any element equal to `x`, the others in their order:
      what `remove` / `removeString` leave. */
  function Without<T(==)>(s: seq<T>, x: T): (r: seq<T>)
    ensures |r| <= |s|
    ensures forall y | y in r :: y in s && y != x
    ensures forall y | y in s && y != x :: y in r
  {
    if s == [] then []
    else
      var init, last := s[..|s| - 1], s[|s| - 1];
      assert s == init + [last];
      Without(init, x) + (if last == x then [] else [last])
  }

  /** The list after one command: `cleanup` empties it, `add` puts the
      value after the earlier elements, and `remove` drops every occurrence
      of the value and keeps every other value as often as before. */
  function Apply<T(==)>(s: seq<T>, c: Command<T>): (r: seq<T>)
    ensures c.Cleanup? ==> r == []
    ensures c.Add? ==> |r| == |s| + 1 && r[..|s|] == s && r[|s|] == c.arg
    ensures c.Remove? ==> multiset(r) == multiset(s)[c.arg := 0]
  {
    match c
    case Cleanup => []
    case Add(x) => s + [x]
    case Remove(x) => WithoutCounts(s, x); Without(s, x)
  }

  /** One more element of the input adds it to the result unless it equals
      `x`: the step of a walk that removes as it goes. */
  lemma WithoutStep<T>(s: seq<T>, i: nat, x: T)
    requires i < |s|
    ensures Without(s[..i + 1], x) == Without(s[..i], x) + (if s[i] == x then [] else [s[i]])
  {
    assert s[..i + 1][..i] == s[..i];
  }

  /** One step of the removing walk over `orig`: the list is the kept part
      of the first `i` elements followed by the unvisited rest, and `pos`,
      the length of the kept part, points at element `i`. Unlinking that
      element when it equals `x`, or stepping over it otherwise, restores
      this shape for `i + 1`. */
  lemma RemoveWalkStep<T>(orig: seq<T>, i: nat, x: T, cur: seq<T>, pos: nat)
    requires i < |orig|
    requires cur == Without(orig[..i], x) + orig[i..] && pos == |Without(orig[..i], x)|
    ensures pos < |cur| && cur[pos] == orig[i]
    ensures orig[i] == x ==>
              cur[..pos] + cur[pos + 1..] == Without(orig[..i + 1], x) + orig[i + 1..] &&
              pos == |Without(orig[..i + 1], x)|
    ensures orig[i] != x ==>
              cur == Without(orig[..i + 1], x) + orig[i + 1..] &&
              pos + 1 == |Without(orig[..i + 1], x)|
  {
    WithoutStep(orig, i, x);
    var w := Without(orig[..i], x);
    assert orig[i..] == [orig[i]] + orig[i + 1..];
    assert cur == w + [orig[i]] + orig[i + 1..];
    if orig[i] == x {
      assert cur[..pos] + cur[pos + 1..] == w + orig[i + 1..];
    }
  }

  /** Removing distributes over concatenation: the kept elements keep their
      relative order. */
  lemma {:induction false} WithoutAppend<T>(a: seq<T>, b: seq<T>, x: T)
    ensures Without(a + b, x) == Without(a, x) + Without(b, x)
  {
    if b == [] {
      assert a + b == a;
    } else {
      var init, last := b[..|b| - 1], b[|b| - 1];
      assert (a + b)[..|a + b| - 1] == a + init;
      WithoutAppend(a, init, x);
    }
  }

  /** Every occurrence of `x` is gone and every other element keeps its
      number of occurrences. */
  lemma {:induction false} WithoutCounts<T>(s: seq<T>, x: T)
    ensures multiset(Without(s, x)) == multiset(s)[x := 0]
  {
    if s != [] {
      var init, last := s[..|s| - 1], s[|s| - 1];
      assert s == init + [last];
      WithoutCounts(init, x);
    }
  }

  /** Removing a value that is not in the list changes nothing. */
  lemma {:induction false} WithoutAbsent<T>(s: seq<T>, x: T)
    requires x !in s
    ensures Without(s, x) == s
  {
    if s != [] {
      var init, last := s[..|s| - 1], s[|s| - 1];
      assert s == init + [last];
      WithoutAbsent(init, x);
    }
  }

  /** Removing twice is removing once. */
  lemma WithoutIdempotent<T>(s: seq<T>, x: T)
    ensures Without(Without(s, x), x) == Without(s, x)
  {
    WithoutAbsent(Without(s, x), x);
  }
}
