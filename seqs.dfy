/** Sequence operations the pages rely on: `Array.prototype.filter`,
    `Array.prototype.find`-style first index, and the insertion-ordered key
    list of a JavaScript `Map` (first occurrences, duplicates dropped). */
module Seqs {

  /** `s.filter(keep)`: the elements satisfying `keep`, in their original order. */
  function Filter<T>(s: seq<T>, keep: T -> bool): (r: seq<T>)
    ensures |r| <= |s|
    ensures forall k :: 0 <= k < |r| ==> r[k] in s && keep(r[k])
    ensures forall k :: 0 <= k < |s| && keep(s[k]) ==> s[k] in r
  {
    if s == [] then []
    else (if keep(s[0]) then [s[0]] else []) + Filter(s[1..], keep)
  }

  /** Nothing is kept when no element satisfies `keep`. */
  lemma {:induction false} FilterNone<T>(s: seq<T>, keep: T -> bool)
    requires forall k :: 0 <= k < |s| ==> !keep(s[k])
    ensures Filter(s, keep) == []
  {
    if s != [] {
      FilterNone(s[1..], keep);
    }
  }

  /** Every sequence is a subsequence of itself. */
  lemma {:induction false} SubsequenceReflexive<T>(s: seq<T>)
    ensures IsSubsequence(s, s)
  {
    if s != [] {
      SubsequenceReflexive(s[1..]);
    }
  }

  /** `a` can be obtained from `b` by deleting elements. */
  ghost predicate IsSubsequence<T>(a: seq<T>, b: seq<T>)
  {
    if a == [] then true
    else if b == [] then false
    else (a[0] == b[0] && IsSubsequence(a[1..], b[1..])) || IsSubsequence(a, b[1..])
  }

  lemma {:induction false} FilterIsSubsequence<T>(s: seq<T>, keep: T -> bool)
    ensures IsSubsequence(Filter(s, keep), s)
  {
    if s != [] {
      FilterIsSubsequence(s[1..], keep);
      if keep(s[0]) {
        assert Filter(s, keep) == [s[0]] + Filter(s[1..], keep);
        assert Filter(s, keep)[1..] == Filter(s[1..], keep);
      } else {
        assert Filter(s, keep) == Filter(s[1..], keep);
        SubsequenceDropHead(Filter(s[1..], keep), s);
      }
    }
  }

  lemma {:induction false} SubsequenceDropHead<T>(a: seq<T>, b: seq<T>)
    requires b != [] && IsSubsequence(a, b[1..])
    ensures IsSubsequence(a, b)
  {
  }

  /** Filtering `s + [x]` appends `x` to the filtered prefix exactly when `x` is kept. */
  lemma {:induction false} FilterSnoc<T>(s: seq<T>, x: T, keep: T -> bool)
    ensures Filter(s + [x], keep) == Filter(s, keep) + (if keep(x) then [x] else [])
  {
    if s == [] {
      assert [x][1..] == [];
    } else {
      assert (s + [x])[0] == s[0];
      assert (s + [x])[1..] == s[1..] + [x];
      FilterSnoc(s[1..], x, keep);
    }
  }

  /** Filtering distributes over concatenation. */
  lemma {:induction false} FilterAppend<T>(a: seq<T>, b: seq<T>, keep: T -> bool)
    ensures Filter(a + b, keep) == Filter(a, keep) + Filter(b, keep)
  {
    if a == [] {
      assert a + b == b;
    } else {
      assert (a + b)[0] == a[0];
      assert (a + b)[1..] == a[1..] + b;
      FilterAppend(a[1..], b, keep);
    }
  }

  /** A kept element sits in the filtered list right after the kept elements
      that precede it. */
  lemma FilterPosition<T>(s: seq<T>, keep: T -> bool, i: nat)
    requires i < |s| && keep(s[i])
    ensures |Filter(s[..i], keep)| < |Filter(s, keep)|
    ensures Filter(s, keep)[|Filter(s[..i], keep)|] == s[i]
  {
    assert s[..i + 1] == s[..i] + [s[i]];
    FilterSnoc(s[..i], s[i], keep);
    FilterAppend(s[..i + 1], s[i + 1..], keep);
    assert s == s[..i + 1] + s[i + 1..];
  }

  /** Filtering with a predicate and with its negation splits the sequence: the
      two parts together hold every element exactly as often as `s` does. */
  lemma FilterPartition<T>(s: seq<T>, keep: T -> bool, drop: T -> bool)
    requires forall k :: 0 <= k < |s| ==> (keep(s[k]) <==> !drop(s[k]))
    ensures |Filter(s, keep)| + |Filter(s, drop)| == |s|
    ensures multiset(Filter(s, keep)) + multiset(Filter(s, drop)) == multiset(s)
  {
    FilterPartitionMultiset(s, keep, drop);
    assert |multiset(Filter(s, keep)) + multiset(Filter(s, drop))| == |multiset(s)|;
  }

  lemma {:induction false} FilterPartitionMultiset<T>(s: seq<T>, keep: T -> bool, drop: T -> bool)
    requires forall k :: 0 <= k < |s| ==> (keep(s[k]) <==> !drop(s[k]))
    ensures multiset(Filter(s, keep)) + multiset(Filter(s, drop)) == multiset(s)
  {
    if s != [] {
      var head, tail := s[0], s[1..];
      assert forall k :: 0 <= k < |tail| ==> tail[k] == s[k + 1];
      FilterPartitionMultiset(tail, keep, drop);
      assert s == [head] + tail;
      MultisetStep(head, tail, Filter(tail, keep), Filter(tail, drop), Filter(s, keep), Filter(s, drop));
    }
  }

  /** Putting `head` in front of one of two parts of `tail` gives two parts
      of `[head] + tail`. */
  lemma MultisetStep<T>(head: T, tail: seq<T>, a: seq<T>, b: seq<T>, a': seq<T>, b': seq<T>)
    requires multiset(a) + multiset(b) == multiset(tail)
    requires (a' == [head] + a && b' == b) || (a' == a && b' == [head] + b)
    ensures multiset(a') + multiset(b') == multiset([head] + tail)
  {
  }

  /** Sorted by `key`, largest first. */
  ghost predicate Descending<T>(s: seq<T>, key: T -> int)
  {
    forall i, j :: 0 <= i < j < |s| ==> key(s[i]) >= key(s[j])
  }

  /** Sorted by `key`, smallest first. */
  ghost predicate Ascending<T>(s: seq<T>, key: T -> int)
  {
    forall i, j :: 0 <= i < j < |s| ==> key(s[i]) <= key(s[j])
  }

  lemma {:induction false} FilterKeepsDescending<T>(s: seq<T>, keep: T -> bool, key: T -> int)
    requires Descending(s, key)
    ensures Descending(Filter(s, keep), key)
  {
    if s != [] {
      assert Descending(s[1..], key);
      FilterKeepsDescending(s[1..], keep, key);
      var t := Filter(s[1..], keep);
      forall x | x in t ensures key(s[0]) >= key(x) {
        var k :| 0 <= k < |s[1..]| && s[1..][k] == x;
        assert s[k + 1] == x;
      }
    }
  }

  lemma {:induction false} FilterKeepsAscending<T>(s: seq<T>, keep: T -> bool, key: T -> int)
    requires Ascending(s, key)
    ensures Ascending(Filter(s, keep), key)
  {
    if s != [] {
      assert Ascending(s[1..], key);
      FilterKeepsAscending(s[1..], keep, key);
      var t := Filter(s[1..], keep);
      forall x | x in t ensures key(s[0]) <= key(x) {
        var k :| 0 <= k < |s[1..]| && s[1..][k] == x;
        assert s[k + 1] == x;
      }
    }
  }

  /** The position of the first occurrence of `x` in `s`. */
  function FirstIndex<T(==)>(s: seq<T>, x: T): (i: nat)
    requires x in s
    ensures i < |s| && s[i] == x
    ensures forall j :: 0 <= j < i ==> s[j] != x
  {
    if s[0] == x then 0 else 1 + FirstIndex(s[1..], x)
  }

  lemma FirstIndexSnoc<T>(s: seq<T>, y: T, x: T)
    requires x in s
    ensures FirstIndex(s + [y], x) == FirstIndex(s, x)
  {
    var i, k := FirstIndex(s + [y], x), FirstIndex(s, x);
    assert (s + [y])[k] == x;
    assert i <= k;
    assert s[i] == x;
  }

  /** The distinct elements of `s` in order of first occurrence: the key order
      of a JavaScript `Map` filled from `s` with `if (!map.has(k)) map.set(k, ...)`. */
  function Distinct<T(==)>(s: seq<T>): (r: seq<T>)
  {
    if s == [] then []
    else
      var d := Distinct(s[..|s| - 1]);
      if s[|s| - 1] in d then d else d + [s[|s| - 1]]
  }

  ghost predicate NoDuplicates<T>(s: seq<T>)
  {
    forall i, j :: 0 <= i < j < |s| ==> s[i] != s[j]
  }

  /** `Distinct` keeps every element once, and only elements of `s`. */
  lemma {:induction false} DistinctElements<T>(s: seq<T>)
    ensures NoDuplicates(Distinct(s))
    ensures forall x :: x in Distinct(s) <==> x in s
    ensures forall i :: 0 <= i < |Distinct(s)| ==> Distinct(s)[i] in s
  {
    if s != [] {
      var init := s[..|s| - 1];
      DistinctElements(init);
      assert s == init + [s[|s| - 1]];
    }
  }

  /** `Distinct` lists the elements in the order of their first occurrences in `s`. */
  lemma {:induction false} DistinctFollowsFirstOccurrence<T>(s: seq<T>, a: nat, b: nat)
    requires a < b < |Distinct(s)|
    ensures Distinct(s)[a] in s && Distinct(s)[b] in s
    ensures FirstIndex(s, Distinct(s)[a]) < FirstIndex(s, Distinct(s)[b])
  {
    DistinctElements(s);
    var init, last := s[..|s| - 1], s[|s| - 1];
    assert s == init + [last];
    var d := Distinct(init);
    DistinctElements(init);
    var x, y := Distinct(s)[a], Distinct(s)[b];
    if last in d {
      DistinctFollowsFirstOccurrence(init, a, b);
      FirstIndexSnoc(init, last, x);
      FirstIndexSnoc(init, last, y);
    } else if b < |d| {
      DistinctFollowsFirstOccurrence(init, a, b);
      FirstIndexSnoc(init, last, x);
      FirstIndexSnoc(init, last, y);
    } else {
      assert Distinct(s) == d + [last];
      assert y == last && last !in init;
      assert x == d[a];
      FirstIndexSnoc(init, last, x);
      assert FirstIndex(s, y) == |s| - 1;
    }
  }
}
