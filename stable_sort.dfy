/**
 * `Array.prototype.sort` with a numeric comparator, as the viewer uses it.
 * Since ES2019 the engine's sort is stable, so sorting with a comparator
 * `(a, b) => key(a) - key(b)` yields the unique stable ascending order by
 * `key`. `SortBy` defines that order (insertion from the right);
 * `SortInPlace` is the in-place array algorithm proved to produce it, and
 * `SortedUnique` shows that any stable ascending reordering is that same
 * sequence, whatever algorithm the engine runs.
 */
module StableSort {

  /** Inserts `x` after every element of `r` whose key is at most `key(x)`, scanning from the end. */
  function Insert<T>(r: seq<T>, x: T, key: T -> int): seq<T>
    decreases |r|
  {
    if r == [] || key(r[|r| - 1]) <= key(x) then r + [x]
    else Insert(r[..|r| - 1], x, key) + [r[|r| - 1]]
  }

  /** Stable ascending sort by `key`. */
  function SortBy<T>(s: seq<T>, key: T -> int): seq<T>
    decreases |s|
  {
    if s == [] then [] else Insert(SortBy(s[..|s| - 1], key), s[|s| - 1], key)
  }

  predicate SortedBy<T>(s: seq<T>, key: T -> int) {
    forall i, j :: 0 <= i < j < |s| ==> key(s[i]) <= key(s[j])
  }

  /** The elements of `s` whose key is `v`, in their order in `s`. */
  function WithKey<T>(s: seq<T>, key: T -> int, v: int): seq<T>
    decreases |s|
  {
    if s == [] then []
    else WithKey(s[..|s| - 1], key, v) + (if key(s[|s| - 1]) == v then [s[|s| - 1]] else [])
  }

  /** `s.map(g)`. */
  function MapSeq<T, U>(g: T -> U, s: seq<T>): (r: seq<U>)
    ensures |r| == |s| && forall i :: 0 <= i < |s| ==> r[i] == g(s[i])
  {
    seq(|s|, i requires 0 <= i < |s| => g(s[i]))
  }

  // ---------------------------------------------------------------------
  // Permutation

  lemma {:induction false} InsertPermutation<T>(r: seq<T>, x: T, key: T -> int)
    ensures multiset(Insert(r, x, key)) == multiset(r) + multiset{x}
  {
    if !(r == [] || key(r[|r| - 1]) <= key(x)) {
      InsertPermutation(r[..|r| - 1], x, key);
      assert r == r[..|r| - 1] + [r[|r| - 1]];
    }
  }

  /** Sorting only reorders: the result is a permutation of the input. */
  lemma {:induction false} SortByPermutation<T>(s: seq<T>, key: T -> int)
    ensures multiset(SortBy(s, key)) == multiset(s)
    ensures |SortBy(s, key)| == |s|
  {
    if s != [] {
      SortByPermutation(s[..|s| - 1], key);
      InsertPermutation(SortBy(s[..|s| - 1], key), s[|s| - 1], key);
      assert s == s[..|s| - 1] + [s[|s| - 1]];
    }
    assert |multiset(SortBy(s, key))| == |multiset(s)|;
  }

  // ---------------------------------------------------------------------
  // Order

  lemma {:induction false} InsertSorted<T>(r: seq<T>, x: T, key: T -> int)
    requires SortedBy(r, key)
    ensures SortedBy(Insert(r, x, key), key)
  {
    if !(r == [] || key(r[|r| - 1]) <= key(x)) {
      var r', last := r[..|r| - 1], r[|r| - 1];
      InsertSorted(r', x, key);
      InsertPermutation(r', x, key);
      var ins := Insert(r', x, key);
      forall i | 0 <= i < |ins|
        ensures key(ins[i]) <= key(last)
      {
        assert ins[i] in multiset(ins);
        assert ins[i] in multiset(r') || ins[i] == x;
        if ins[i] != x {
          var k :| 0 <= k < |r'| && r'[k] == ins[i];
        }
      }
    }
  }

  /** The result is in ascending key order. */
  lemma {:induction false} SortBySorted<T>(s: seq<T>, key: T -> int)
    ensures SortedBy(SortBy(s, key), key)
  {
    if s != [] {
      SortBySorted(s[..|s| - 1], key);
      InsertSorted(SortBy(s[..|s| - 1], key), s[|s| - 1], key);
    }
  }

  // ---------------------------------------------------------------------
  // Stability

  lemma {:induction false} WithKeyAppend<T>(a: seq<T>, b: seq<T>, key: T -> int, v: int)
    ensures WithKey(a + b, key, v) == WithKey(a, key, v) + WithKey(b, key, v)
    decreases |b|
  {
    if b != [] {
      assert (a + b)[..|a + b| - 1] == a + b[..|b| - 1];
      WithKeyAppend(a, b[..|b| - 1], key, v);
    } else {
      assert a + b == a;
    }
  }

  lemma {:induction false} InsertStable<T>(r: seq<T>, x: T, key: T -> int, v: int)
    ensures WithKey(Insert(r, x, key), key, v)
         == WithKey(r, key, v) + (if key(x) == v then [x] else [])
  {
    if r == [] || key(r[|r| - 1]) <= key(x) {
      WithKeyAppend(r, [x], key, v);
      assert WithKey([x], key, v) == WithKey([], key, v) + (if key(x) == v then [x] else []) by {
        assert [x][..0] == [];
      }
    } else {
      var r', last := r[..|r| - 1], r[|r| - 1];
      InsertStable(r', x, key, v);
      assert Insert(r, x, key)[..|Insert(r, x, key)| - 1] == Insert(r', x, key);
    }
  }

  /**
   * Stability: for every key value, the elements carrying it appear in the
   * result in the same relative order as in the input.
   */
  lemma {:induction false} SortByStable<T>(s: seq<T>, key: T -> int, v: int)
    ensures WithKey(SortBy(s, key), key, v) == WithKey(s, key, v)
  {
    if s != [] {
      SortByStable(s[..|s| - 1], key, v);
      InsertStable(SortBy(s[..|s| - 1], key), s[|s| - 1], key, v);
    }
  }

  /** Sorting an already sorted sequence changes nothing. */
  lemma {:induction false} SortedFixpoint<T>(s: seq<T>, key: T -> int)
    requires SortedBy(s, key)
    ensures SortBy(s, key) == s
  {
    if s != [] {
      var s' := s[..|s| - 1];
      assert SortedBy(s', key);
      SortedFixpoint(s', key);
      if |s'| > 0 {
        assert key(s'[|s'| - 1]) <= key(s[|s| - 1]);
      }
    }
  }

  /** Re-ranking is deterministic: sorting twice gives the order of sorting once. */
  lemma SortByIdempotent<T>(s: seq<T>, key: T -> int)
    ensures SortBy(SortBy(s, key), key) == SortBy(s, key)
  {
    SortBySorted(s, key);
    SortedFixpoint(SortBy(s, key), key);
  }

  // ---------------------------------------------------------------------
  // Uniqueness

  lemma {:induction false} WithKeyMembers<T>(s: seq<T>, key: T -> int, v: int, e: T)
    requires e in WithKey(s, key, v)
    ensures e in s && key(e) == v
  {
    if s != [] {
      var s' := s[..|s| - 1];
      if e in WithKey(s', key, v) {
        WithKeyMembers(s', key, v, e);
      }
    }
  }

  lemma WithKeyOfLast<T>(s: seq<T>, key: T -> int)
    requires s != []
    ensures WithKey(s, key, key(s[|s| - 1])) != []
  {
  }

  /** The last element of a sequence ends its own key class. */
  lemma LastOfClass<T>(s: seq<T>, key: T -> int)
    requires s != []
    ensures var w := WithKey(s, key, key(s[|s| - 1])); w != [] && w[|w| - 1] == s[|s| - 1]
  {
  }

  /** In an ascending sequence, every element's key is at most the last one's. */
  lemma KeyAtMostLast<T>(s: seq<T>, key: T -> int, e: T)
    requires SortedBy(s, key) && e in s
    ensures key(e) <= key(s[|s| - 1])
  {
    var i :| 0 <= i < |s| && s[i] == e;
    if i < |s| - 1 {
      assert key(s[i]) <= key(s[|s| - 1]);
    }
  }

  /** Two ascending sequences with the same key classes end with the same element. */
  lemma SameLast<T>(t: seq<T>, u: seq<T>, key: T -> int)
    requires t != [] && u != []
    requires SortedBy(t, key) && SortedBy(u, key)
    requires WithKey(t, key, key(t[|t| - 1])) == WithKey(u, key, key(t[|t| - 1]))
    requires WithKey(t, key, key(u[|u| - 1])) == WithKey(u, key, key(u[|u| - 1]))
    ensures t[|t| - 1] == u[|u| - 1]
  {
    var a, b := t[|t| - 1], u[|u| - 1];
    LastOfClass(t, key);
    LastOfClass(u, key);
    var wa := WithKey(u, key, key(a));
    WithKeyMembers(u, key, key(a), wa[|wa| - 1]);
    KeyAtMostLast(u, key, a);
    var wb := WithKey(t, key, key(b));
    WithKeyMembers(t, key, key(b), wb[|wb| - 1]);
    KeyAtMostLast(t, key, b);
  }

  /** Dropping the same last element from both sides keeps the classes equal. */
  lemma DropLast<T>(t: seq<T>, u: seq<T>, key: T -> int, v: int)
    requires t != [] && u != [] && t[|t| - 1] == u[|u| - 1]
    requires WithKey(t, key, v) == WithKey(u, key, v)
    ensures WithKey(t[..|t| - 1], key, v) == WithKey(u[..|u| - 1], key, v)
  {
    var a := t[|t| - 1];
    var tail := if key(a) == v then [a] else [];
    var p, q := WithKey(t[..|t| - 1], key, v), WithKey(u[..|u| - 1], key, v);
    assert WithKey(t, key, v) == p + tail;
    assert WithKey(u, key, v) == q + tail;
    assert p == (p + tail)[..|p|];
    assert q == (q + tail)[..|q|];
  }

  /**
   * Two ascending sequences that agree on the elements of every key class,
   * in order, are the same sequence.
   */
  lemma {:induction false} SortedClassesEqual<T>(t: seq<T>, u: seq<T>, key: T -> int)
    requires SortedBy(t, key) && SortedBy(u, key)
    requires forall v :: WithKey(t, key, v) == WithKey(u, key, v)
    ensures t == u
    decreases |t| + |u|
  {
    if t == [] || u == [] {
      // the last element of a non-empty side is a class the other side lacks
      if t != [] {
        WithKeyOfLast(t, key);
      } else if u != [] {
        WithKeyOfLast(u, key);
      }
    } else {
      SameLast(t, u, key);
      var t', u' := t[..|t| - 1], u[..|u| - 1];
      forall v
        ensures WithKey(t', key, v) == WithKey(u', key, v)
      {
        DropLast(t, u, key, v);
      }
      assert SortedBy(t', key) && SortedBy(u', key);
      SortedClassesEqual(t', u', key);
      assert t == t' + [t[|t| - 1]] && u == u' + [u[|u| - 1]];
    }
  }

  /**
   * Any ascending reordering of `s` that keeps every key class in input
   * order -- the result of any stable sort -- is `SortBy(s, key)`.
   */
  lemma SortedUnique<T>(s: seq<T>, t: seq<T>, key: T -> int)
    requires SortedBy(t, key)
    requires forall v :: WithKey(t, key, v) == WithKey(s, key, v)
    ensures t == SortBy(s, key)
  {
    SortBySorted(s, key);
    forall v
      ensures WithKey(t, key, v) == WithKey(SortBy(s, key), key, v)
    {
      SortByStable(s, key, v);
    }
    SortedClassesEqual(t, SortBy(s, key), key);
  }

  // ---------------------------------------------------------------------
  // Projection

  lemma {:induction false} InsertMap<T, U>(r: seq<T>, x: T, key: T -> int, g: T -> U, key2: U -> int)
    requires forall y :: key(y) == key2(g(y))
    ensures MapSeq(g, Insert(r, x, key)) == Insert(MapSeq(g, r), g(x), key2)
  {
    if !(r == [] || key(r[|r| - 1]) <= key(x)) {
      InsertMap(r[..|r| - 1], x, key, g, key2);
      assert MapSeq(g, r)[..|r| - 1] == MapSeq(g, r[..|r| - 1]);
    }
  }

  /**
   * Sorting commutes with a projection that the key factors through:
   * sorting the records gives the same order as sorting what they project to.
   */
  lemma {:induction false} SortByMap<T, U>(s: seq<T>, key: T -> int, g: T -> U, key2: U -> int)
    requires forall y :: key(y) == key2(g(y))
    ensures MapSeq(g, SortBy(s, key)) == SortBy(MapSeq(g, s), key2)
  {
    if s != [] {
      SortByMap(s[..|s| - 1], key, g, key2);
      InsertMap(SortBy(s[..|s| - 1], key), s[|s| - 1], key, g, key2);
      assert MapSeq(g, s)[..|s| - 1] == MapSeq(g, s[..|s| - 1]);
    }
  }

  // ---------------------------------------------------------------------
  // The in-place algorithm

  /** `Insert` places `x` at the first index `j` after which every key exceeds `key(x)`. */
  lemma {:induction false} InsertSplit<T>(r: seq<T>, x: T, key: T -> int, j: nat)
    requires j <= |r|
    requires j == 0 || key(r[j - 1]) <= key(x)
    requires forall k :: j <= k < |r| ==> key(r[k]) > key(x)
    ensures Insert(r, x, key) == r[..j] + [x] + r[j..]
  {
    if j < |r| {
      var r' := r[..|r| - 1];
      InsertSplit(r', x, key, j);
      assert r'[..j] == r[..j];
      assert r'[j..] + [r[|r| - 1]] == r[j..];
    }
  }

  /**
   * One insertion step: with `a[..i]` holding `sorted`, shifts the larger
   * elements right by one and drops `a[i]` into the gap.
   */
  method InsertStep<T>(a: array<T>, i: nat, key: T -> int)
    requires i < a.Length
    modifies a
    ensures a[..i + 1] == Insert(old(a[..i]), old(a[i]), key)
    ensures a[i + 1..] == old(a[i + 1..])
  {
    ghost var sorted := a[..i];
    var x := a[i];
    var j := i;
    while j > 0 && key(a[j - 1]) > key(x)
      invariant 0 <= j <= i
      invariant forall k :: 0 <= k < j ==> a[k] == sorted[k]
      invariant forall k :: j < k <= i ==> a[k] == sorted[k - 1]
      invariant forall k :: i < k < a.Length ==> a[k] == old(a[k])
      invariant forall k :: j <= k < i ==> key(sorted[k]) > key(x)
    {
      a[j] := a[j - 1];
      j := j - 1;
    }
    a[j] := x;
    InsertSplit(sorted, x, key, j);
    assert a[..i + 1] == sorted[..j] + [x] + sorted[j..];
  }

  /** Sorts `a` in place, stably, ascending by `key` (insertion sort). */
  method SortInPlace<T>(a: array<T>, key: T -> int)
    modifies a
    ensures a[..] == SortBy(old(a[..]), key)
  {
    ghost var input := a[..];
    var i := 0;
    while i < a.Length
      invariant 0 <= i <= a.Length
      invariant a[..i] == SortBy(input[..i], key)
      invariant a[i..] == input[i..]
    {
      ghost var before := a[..];
      assert before[i] == input[i] by { assert before[i..][0] == input[i..][0]; }
      InsertStep(a, i, key);
      assert input[..i + 1][..i] == input[..i];
      assert input[..i + 1][i] == input[i];
      assert a[..i + 1] == SortBy(input[..i + 1], key);
      assert a[i + 1..] == input[i + 1..] by { assert before[i + 1..] == before[i..][1..]; }
      i := i + 1;
    }
    assert input[..a.Length] == input;
  }
}
