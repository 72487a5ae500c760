/** The library sort every ranking in the engine relies on. Since ECMAScript
    2019 `Array.prototype.sort` must be stable, so elements the comparator
    calls equal keep their input order. The model is a stable insertion sort
    over a relation `before(a, b)`, which holds exactly when the source's
    comparator returns a negative number for `(a, b)`. */
module StableSort {
  import opened Base

  /** The comparator is consistent: irreflexive, transitive, and "not before"
      is transitive too (equal keys form classes). Every comparator of the
      engine is of this kind. */
  ghost predicate StrictWeakOrder<T(!new)>(before: (T, T) -> bool)
  {
    && (forall a :: !before(a, a))
    && (forall a, b, c :: before(a, b) && before(b, c) ==> before(a, c))
    && (forall a, b, c :: before(a, c) ==> before(a, b) || before(b, c))
  }

  /** No later element is strictly before an earlier one. */
  ghost predicate Sorted<T>(s: seq<T>, before: (T, T) -> bool)
  {
    forall i, j :: 0 <= i < j < |s| ==> !before(s[j], s[i])
  }

  /** Insert `x` after every element it is not strictly before. */
  function Insert<T>(s: seq<T>, x: T, before: (T, T) -> bool): (r: seq<T>)
    ensures |r| == |s| + 1
    ensures multiset(r) == multiset(s) + multiset{x}
  {
    if s == [] then [x]
    else if before(x, s[0]) then [x] + s
    else
      assert s == [s[0]] + s[1..];
      [s[0]] + Insert(s[1..], x, before)
  }

  /** `[...s].sort(compare)` */
  function SortBy<T>(s: seq<T>, before: (T, T) -> bool): (r: seq<T>)
    ensures |r| == |s|
    ensures multiset(r) == multiset(s)
  {
    if s == [] then []
    else
      assert s == s[..|s| - 1] + [s[|s| - 1]];
      Insert(SortBy(s[..|s| - 1], before), s[|s| - 1], before)
  }

  lemma {:induction false} InsertKeepsSorted<T(!new)>(s: seq<T>, x: T, before: (T, T) -> bool)
    requires StrictWeakOrder(before)
    requires Sorted(s, before)
    ensures Sorted(Insert(s, x, before), before)
  {
    if s == [] {
    } else if before(x, s[0]) {
      InsertFrontSorted(s, x, before);
    } else {
      SortedTail(s, before);
      InsertKeepsSorted(s[1..], x, before);
      HeadThenSorted(s, Insert(s[1..], x, before), x, before);
    }
  }

  /** Putting an element strictly before the head in front keeps a list sorted. */
  lemma InsertFrontSorted<T(!new)>(s: seq<T>, x: T, before: (T, T) -> bool)
    requires StrictWeakOrder(before)
    requires Sorted(s, before)
    requires s != [] && before(x, s[0])
    ensures Sorted([x] + s, before)
  {
    var r := [x] + s;
    forall i, j | 0 <= i < j < |r| ensures !before(r[j], r[i]) {
      if i == 0 {
        assert r[j] == s[j - 1];
        assert !before(s[j - 1], s[0]);
      }
    }
  }

  /** Keeping the head of a sorted list in front of a sorted rearrangement of
      its tail plus one element the head is not after keeps it sorted. */
  lemma HeadThenSorted<T>(s: seq<T>, t: seq<T>, x: T, before: (T, T) -> bool)
    requires Sorted(s, before) && Sorted(t, before)
    requires s != [] && !before(x, s[0])
    requires multiset(t) == multiset(s[1..]) + multiset{x}
    ensures Sorted([s[0]] + t, before)
  {
    var r := [s[0]] + t;
    forall i, j | 0 <= i < j < |r| ensures !before(r[j], r[i]) {
      if i == 0 {
        var y := t[j - 1];
        assert y in multiset(t);
        if y != x {
          assert y in multiset(s[1..]);
          var k :| 0 <= k < |s[1..]| && s[1..][k] == y;
          assert s[k + 1] == y;
        }
      }
    }
  }

  lemma {:induction false} SortBySorted<T(!new)>(s: seq<T>, before: (T, T) -> bool)
    requires StrictWeakOrder(before)
    ensures Sorted(SortBy(s, before), before)
  {
    if s != [] {
      SortBySorted(s[..|s| - 1], before);
      InsertKeepsSorted(SortBy(s[..|s| - 1], before), s[|s| - 1], before);
    }
  }

  /** In a sorted sequence, whatever `x` is strictly before the head, it is
      strictly before every element. */
  lemma BeforeHeadBeforeAll<T(!new)>(t: seq<T>, x: T, before: (T, T) -> bool)
    requires StrictWeakOrder(before)
    requires Sorted(t, before)
    requires t != [] && before(x, t[0])
    ensures forall y :: y in t ==> before(x, y)
  {
    forall y | y in t ensures before(x, y) {
      var m :| 0 <= m < |t| && t[m] == y;
      if m > 0 {
        assert !before(t[m], t[0]);
      }
    }
  }

  lemma SortedTail<T>(t: seq<T>, before: (T, T) -> bool)
    requires t != [] && Sorted(t, before)
    ensures Sorted(t[1..], before)
  {
    forall i, j | 0 <= i < j < |t[1..]| ensures !before(t[1..][j], t[1..][i]) {
      assert t[1..][j] == t[j + 1] && t[1..][i] == t[i + 1];
    }
  }

  lemma FilterInsertAtHead<T(!new)>(t: seq<T>, x: T, p: T -> bool, before: (T, T) -> bool)
    requires StrictWeakOrder(before)
    requires Sorted(t, before)
    requires t != [] && before(x, t[0]) && p(x)
    ensures Insert(Filter(t, p), x, before) == [x] + Filter(t, p)
  {
    var ft := Filter(t, p);
    if ft != [] {
      BeforeHeadBeforeAll(t, x, before);
      assert ft[0] in t;
    }
  }

  lemma {:induction false} FilterInsert<T(!new)>(t: seq<T>, x: T, p: T -> bool, before: (T, T) -> bool)
    requires StrictWeakOrder(before)
    requires Sorted(t, before)
    ensures Filter(Insert(t, x, before), p)
         == if p(x) then Insert(Filter(t, p), x, before) else Filter(t, p)
  {
    if t == [] {
    } else if before(x, t[0]) {
      var r := [x] + t;
      assert Insert(t, x, before) == r;
      assert r[0] == x && r[1..] == t;
      if p(x) {
        FilterInsertAtHead(t, x, p, before);
      }
    } else {
      var rest := Insert(t[1..], x, before);
      var r := [t[0]] + rest;
      assert Insert(t, x, before) == r;
      assert r[0] == t[0] && r[1..] == rest;
      SortedTail(t, before);
      FilterInsert(t[1..], x, p, before);
      var h := if p(t[0]) then [t[0]] else [];
      assert Filter(t, p) == h + Filter(t[1..], p);
      assert Filter(r, p) == h + Filter(rest, p);
      if !p(x) {
        assert Filter(r, p) == Filter(t, p);
      } else if p(t[0]) {
        var ft := Filter(t, p);
        assert ft[0] == t[0] && ft[1..] == Filter(t[1..], p);
        assert Insert(ft, x, before) == [t[0]] + Insert(ft[1..], x, before);
        assert Filter(r, p) == Insert(ft, x, before);
      } else {
        assert Filter(t, p) == Filter(t[1..], p);
        assert Filter(r, p) == Filter(rest, p);
      }
    }
  }

  /** Sorting commutes with filtering: sorting a sub-list gives the same order
      as filtering the sorted list. This is where stability shows. */
  lemma {:induction false} FilterSortBy<T(!new)>(s: seq<T>, p: T -> bool, before: (T, T) -> bool)
    requires StrictWeakOrder(before)
    ensures Filter(SortBy(s, before), p) == SortBy(Filter(s, p), before)
  {
    if s != [] {
      var init, x := s[..|s| - 1], s[|s| - 1];
      assert s == init + [x];
      FilterConcat(init, [x], p);
      assert Filter([x], p) == if p(x) then [x] else [];
      FilterSortBy(init, p, before);
      SortBySorted(init, before);
      FilterInsert(SortBy(init, before), x, p, before);
      var fs := Filter(s, p);
      if p(x) {
        assert fs == Filter(init, p) + [x];
        assert fs[..|fs| - 1] == Filter(init, p);
      } else {
        assert fs == Filter(init, p);
      }
    }
  }

  lemma {:induction false} InsertAtEnd<T>(s: seq<T>, x: T, before: (T, T) -> bool)
    requires forall y :: y in s ==> !before(x, y)
    ensures Insert(s, x, before) == s + [x]
  {
    if s != [] {
      InsertAtEnd(s[1..], x, before);
    }
  }

  /** A list whose elements are all tied comes out of the sort unchanged. */
  lemma {:induction false} SortByAllTied<T>(s: seq<T>, before: (T, T) -> bool)
    requires forall a, b :: a in s && b in s ==> !before(a, b)
    ensures SortBy(s, before) == s
  {
    if s != [] {
      var init, x := s[..|s| - 1], s[|s| - 1];
      assert s == init + [x];
      forall a, b | a in init && b in init ensures !before(a, b) {
        assert a in s && b in s;
      }
      SortByAllTied(init, before);
      forall y | y in init ensures !before(x, y) {
        assert y in s;
      }
      InsertAtEnd(init, x, before);
    }
  }

  /** Stability: among elements that tie with one another (any class `p`
      whose members the comparator calls equal), the output keeps their
      input order. */
  lemma Stable<T(!new)>(s: seq<T>, p: T -> bool, before: (T, T) -> bool)
    requires StrictWeakOrder(before)
    requires forall a, b :: p(a) && p(b) ==> !before(a, b)
    ensures Filter(SortBy(s, before), p) == Filter(s, p)
  {
    FilterSortBy(s, p, before);
    SortByAllTied(Filter(s, p), before);
  }

  /** `topN([...s].sort(compare), n)`: the first `n` of the sorted list are
      sorted, drawn from `s`, as many as `s` allows, and nothing left out is
      strictly before anything kept. */
  lemma TopOf<T(!new)>(s: seq<T>, n: nat, before: (T, T) -> bool)
    requires StrictWeakOrder(before)
    ensures var r := Take(SortBy(s, before), n);
      && |r| == (if |s| <= n then |s| else n)
      && Sorted(r, before)
      && multiset(r) <= multiset(s)
      && forall x, y :: x in multiset(s) - multiset(r) && y in r ==> !before(x, y)
  {
    var sorted := SortBy(s, before);
    SortBySorted(s, before);
    var r := Take(sorted, n);
    assert sorted == r + sorted[|r|..];
    assert multiset(sorted) == multiset(r) + multiset(sorted[|r|..]);
    forall x, y | x in multiset(s) - multiset(r) && y in r ensures !before(x, y) {
      assert x in multiset(sorted[|r|..]);
      var j :| 0 <= j < |sorted[|r|..]| && sorted[|r|..][j] == x;
      var i :| 0 <= i < |r| && r[i] == y;
      assert sorted[|r| + j] == x && sorted[i] == y;
    }
  }
}
