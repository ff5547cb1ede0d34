/** Order-preserving selection on sequences, the shape of `Array.prototype.filter` and of a `WHERE` clause. */
module Seqs {

  /** `sub` can be obtained from `s` by deleting elements, keeping the order of the rest. */
  predicate IsSubsequence<T(==)>(sub: seq<T>, s: seq<T>)
    decreases |s|
  {
    |sub| == 0
    || (|s| > 0 && (if sub[0] == s[0] then IsSubsequence(sub[1..], s[1..]) else IsSubsequence(sub, s[1..])))
  }

  /** The elements of `s` that satisfy `keep`, in their original order. */
  function Filter<T(!new)>(keep: T -> bool, s: seq<T>): (r: seq<T>)
    ensures |r| <= |s|
    ensures forall x :: x in r <==> x in s && keep(x)
  {
    if |s| == 0 then []
    else
      var rest := Filter(keep, s[1..]);
      assert s == [s[0]] + s[1..];
      if keep(s[0]) then [s[0]] + rest else rest
  }

  /** What filtering keeps is a subsequence of its input. */
  lemma {:induction false} FilterIsSubsequence<T(!new)>(keep: T -> bool, s: seq<T>)
    ensures IsSubsequence(Filter(keep, s), s)
    decreases |s|
  {
    if |s| > 0 {
      FilterIsSubsequence(keep, s[1..]);
      var rest := Filter(keep, s[1..]);
      if !keep(s[0]) {
        assert rest != [] ==> rest[0] != s[0] by {
          if rest != [] {
            assert rest[0] in rest;
          }
        }
      }
    }
  }

  /** Filtering distributes over appending one element at the end. */
  lemma {:induction false} FilterSnoc<T(!new)>(keep: T -> bool, s: seq<T>, x: T)
    ensures Filter(keep, s + [x]) == Filter(keep, s) + (if keep(x) then [x] else [])
    decreases |s|
  {
    var t := s + [x];
    var tail := if keep(x) then [x] else [];
    if |s| == 0 {
      assert t == [x] && t[1..] == [];
    } else {
      assert t[0] == s[0] && t[1..] == s[1..] + [x];
      FilterSnoc(keep, s[1..], x);
      var head := if keep(s[0]) then [s[0]] else [];
      assert Filter(keep, t) == head + Filter(keep, t[1..]);
      assert Filter(keep, s) == head + Filter(keep, s[1..]);
      assert head + (Filter(keep, s[1..]) + tail) == (head + Filter(keep, s[1..])) + tail;
    }
  }

  /** Filtering keeps every occurrence of a kept value and none of the others. */
  lemma {:induction false} FilterCounts<T(!new)>(keep: T -> bool, s: seq<T>, x: T)
    ensures multiset(Filter(keep, s))[x] == if keep(x) then multiset(s)[x] else 0
    decreases |s|
  {
    if |s| > 0 {
      FilterCounts(keep, s[1..], x);
      assert s == [s[0]] + s[1..];
    }
  }

  /** Keeping everything leaves the sequence as it was. */
  lemma {:induction false} FilterAll<T(!new)>(keep: T -> bool, s: seq<T>)
    requires forall k :: 0 <= k < |s| ==> keep(s[k])
    ensures Filter(keep, s) == s
    decreases |s|
  {
    if |s| > 0 {
      assert forall k :: 0 <= k < |s| - 1 ==> s[1..][k] == s[k + 1];
      FilterAll(keep, s[1..]);
    }
  }

  /** Filtering distributes over concatenation. */
  lemma {:induction false} FilterAppend<T(!new)>(keep: T -> bool, a: seq<T>, b: seq<T>)
    ensures Filter(keep, a + b) == Filter(keep, a) + Filter(keep, b)
    decreases |b|
  {
    if |b| == 0 {
      assert a + b == a;
      assert Filter(keep, b) == [];
    } else {
      var init, x := b[..|b| - 1], b[|b| - 1];
      assert b == init + [x];
      assert a + b == (a + init) + [x];
      FilterAppend(keep, a, init);
      FilterSnoc(keep, a + init, x);
      FilterSnoc(keep, init, x);
    }
  }

  /** Filtering around an element that fails the test filters the two sides separately. */
  lemma FilterAround<T(!new)>(keep: T -> bool, before: seq<T>, x: T, after: seq<T>)
    requires !keep(x)
    ensures Filter(keep, before + [x] + after) == Filter(keep, before) + Filter(keep, after)
  {
    assert before + [x] + after == before + ([x] + after);
    FilterAppend(keep, before, [x] + after);
    FilterAppend(keep, [x], after);
    assert Filter(keep, [x]) == [];
  }

  /** When every element before `i` passes the test, the slice before `i` filters to itself. */
  lemma FilterKeepsPrefix<T(!new)>(keep: T -> bool, s: seq<T>, i: int)
    requires 0 <= i <= |s|
    requires forall k :: 0 <= k < i ==> keep(s[k])
    ensures Filter(keep, s[..i]) == s[..i]
  {
    var before := s[..i];
    assert forall k :: 0 <= k < |before| ==> before[k] == s[k];
    FilterAll(keep, before);
  }

  /** When every element after `i` passes the test, the slice after `i` filters to itself. */
  lemma FilterKeepsSuffix<T(!new)>(keep: T -> bool, s: seq<T>, i: int)
    requires 0 <= i < |s|
    requires forall k :: i < k < |s| ==> keep(s[k])
    ensures Filter(keep, s[i + 1..]) == s[i + 1..]
  {
    var after := s[i + 1..];
    assert forall k :: 0 <= k < |after| ==> after[k] == s[i + 1 + k];
    FilterAll(keep, after);
  }

  /** When exactly the element at `i` fails the test, filtering removes just that element. */
  lemma FilterDropsOne<T(!new)>(keep: T -> bool, s: seq<T>, i: int)
    requires 0 <= i < |s| && !keep(s[i])
    requires forall k :: 0 <= k < |s| && k != i ==> keep(s[k])
    ensures Filter(keep, s) == s[..i] + s[i + 1..]
  {
    var before, after := s[..i], s[i + 1..];
    FilterKeepsPrefix(keep, s, i);
    FilterKeepsSuffix(keep, s, i);
    assert s == before + [s[i]] + after;
    FilterAround(keep, before, s[i], after);
  }
}
