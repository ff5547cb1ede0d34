/**
 * The orders the store sorts style rows by: `order('category').order('name')`
 * and `order('name')`, both ascending, and a sort that realises them.
 */
module StyleOrder {
  import opened Text
  import opened Records

  /** Which `order(...)` chain a query carries. */
  datatype SortKey = ByCategoryThenName | ByName

  /** `a` may come before `b` in a result sorted by `key`. */
  predicate Precedes(key: SortKey, a: Style, b: Style) {
    match key
    case ByCategoryThenName =>
      Below(a.category, b.category) || (a.category == b.category && NotAfter(a.name, b.name))
    case ByName => NotAfter(a.name, b.name)
  }

  lemma PrecedesTotal(key: SortKey, a: Style, b: Style)
    ensures Precedes(key, a, b) || Precedes(key, b, a)
  {
    BelowTotal(a.category, b.category);
    NotAfterTotal(a.name, b.name);
  }

  lemma PrecedesTransitive(key: SortKey, a: Style, b: Style, c: Style)
    requires Precedes(key, a, b) && Precedes(key, b, c)
    ensures Precedes(key, a, c)
  {
    if a.name != b.name && b.name != c.name && NotAfter(a.name, b.name) && NotAfter(b.name, c.name) {
      BelowTransitive(a.name, b.name, c.name);
    }
    if Below(a.category, b.category) && Below(b.category, c.category) {
      BelowTransitive(a.category, b.category, c.category);
    }
  }

  /** Every earlier row may precede every later one. */
  predicate SortedBy(key: SortKey, s: seq<Style>) {
    forall i, j :: 0 <= i < j < |s| ==> Precedes(key, s[i], s[j])
  }

  /** Places `x` into a sorted sequence. */
  function Insert(key: SortKey, x: Style, s: seq<Style>): (r: seq<Style>)
    requires SortedBy(key, s)
    ensures SortedBy(key, r)
    ensures multiset(r) == multiset(s) + multiset{x}
  {
    if |s| == 0 then [x]
    else if Precedes(key, x, s[0]) then
      assert forall j :: 0 <= j < |s| ==> Precedes(key, x, s[j]) by {
        forall j | 0 <= j < |s|
          ensures Precedes(key, x, s[j])
        {
          if j > 0 {
            PrecedesTransitive(key, x, s[0], s[j]);
          }
        }
      }
      [x] + s
    else
      var rest := Insert(key, x, s[1..]);
      PrecedesTotal(key, x, s[0]);
      assert s == [s[0]] + s[1..];
      assert forall y :: y in rest ==> Precedes(key, s[0], y) by {
        forall y | y in rest
          ensures Precedes(key, s[0], y)
        {
          assert y in multiset(rest);
          if y != x {
            assert y in multiset(s[1..]);
            var j :| 0 <= j < |s[1..]| && s[1..][j] == y;
            assert s[j + 1] == y;
          }
        }
      }
      [s[0]] + rest
  }

  /** Insertion sort: a permutation of `s` ordered by `key`. */
  function Sort(key: SortKey, s: seq<Style>): (r: seq<Style>)
    ensures SortedBy(key, r)
    ensures multiset(r) == multiset(s)
  {
    if |s| == 0 then []
    else
      assert s == [s[0]] + s[1..];
      Insert(key, s[0], Sort(key, s[1..]))
  }
}
