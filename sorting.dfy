/**
 * Python's `list.sort` (Timsort is stable) modelled as a stable insertion sort
 * over a "must come before" relation. `sort(key=k)` is `before(a, b) := k(a) < k(b)`;
 * `sort(key=k, reverse=True)` keeps stability and is `before(a, b) := k(a) > k(b)`.
 */
module Sorting {

  /** `before` is a strict weak order: irreflexive, transitive and negatively transitive. */
  ghost predicate StrictWeakOrder<T(!new)>(before: (T, T) -> bool) {
    && (forall a :: !before(a, a))
    && (forall a, b, c :: before(a, b) && before(b, c) ==> before(a, c))
    && (forall a, b, c :: before(a, c) ==> before(a, b) || before(b, c))
  }

  /** Neither element has to come before the other (equal sort keys). */
  predicate Tied<T>(before: (T, T) -> bool, a: T, b: T) {
    !before(a, b) && !before(b, a)
  }

  /** No element is required to come before an element that precedes it. */
  ghost predicate Sorted<T>(s: seq<T>, before: (T, T) -> bool) {
    forall i, j :: 0 <= i < j < |s| ==> !before(s[j], s[i])
  }

  /** Insert `x` after every element it does not have to precede. */
  function Insert<T>(x: T, s: seq<T>, before: (T, T) -> bool): (r: seq<T>)
    ensures multiset(r) == multiset(s) + multiset{x}
    ensures |r| == |s| + 1
  {
    if s == [] then [x]
    else if before(x, s[0]) then [x] + s
    else
      var t := Insert(x, s[1..], before);
      assert s == [s[0]] + s[1..];
      [s[0]] + t
  }

  /** The sorted list: the elements of `s` inserted one by one, in order. */
  function SortBy<T>(s: seq<T>, before: (T, T) -> bool): (r: seq<T>)
  {
    if s == [] then [] else Insert(s[|s| - 1], SortBy(s[..|s| - 1], before), before)
  }

  /** Sorting permutes: the sorted list has the same elements with the same multiplicities. */
  lemma {:induction false} SortByPermutes<T>(s: seq<T>, before: (T, T) -> bool)
    ensures multiset(SortBy(s, before)) == multiset(s)
    ensures |SortBy(s, before)| == |s|
  {
    if s != [] {
      SortByPermutes(s[..|s| - 1], before);
      assert s == s[..|s| - 1] + [s[|s| - 1]];
    }
  }

  lemma {:induction false} InsertSorted<T(!new)>(x: T, s: seq<T>, before: (T, T) -> bool)
    requires StrictWeakOrder(before)
    requires Sorted(s, before)
    ensures Sorted(Insert(x, s, before), before)
  {
    if s != [] && !before(x, s[0]) {
      InsertSorted(x, s[1..], before);
      var t := Insert(x, s[1..], before);
      var r := [s[0]] + t;
      forall i, j | 0 <= i < j < |r| ensures !before(r[j], r[i]) {
        if i == 0 {
          assert r[j] in multiset(t);
          assert r[j] == x || r[j] in multiset(s[1..]);
          if r[j] != x {
            var k :| 0 <= k < |s[1..]| && s[1..][k] == r[j];
            assert s[k + 1] == r[j];
          }
        }
      }
    }
  }

  /** The sorted list is ordered by `before`. */
  lemma {:induction false} SortBySorted<T(!new)>(s: seq<T>, before: (T, T) -> bool)
    requires StrictWeakOrder(before)
    ensures Sorted(SortBy(s, before), before)
  {
    if s != [] {
      SortBySorted(s[..|s| - 1], before);
      InsertSorted(s[|s| - 1], SortBy(s[..|s| - 1], before), before);
    }
  }

  /** The elements of `s` tied with `p`, in their order in `s`. */
  function TiedWith<T>(s: seq<T>, p: T, before: (T, T) -> bool): seq<T>
  {
    if s == [] then []
    else (if Tied(before, s[0], p) then [s[0]] else []) + TiedWith(s[1..], p, before)
  }

  lemma {:induction false} TiedWithConcat<T>(a: seq<T>, b: seq<T>, p: T, before: (T, T) -> bool)
    ensures TiedWith(a + b, p, before) == TiedWith(a, p, before) + TiedWith(b, p, before)
  {
    if a == [] {
      assert a + b == b;
    } else {
      var h := if Tied(before, a[0], p) then [a[0]] else [];
      assert (a + b)[0] == a[0] && (a + b)[1..] == a[1..] + b;
      assert TiedWith(a + b, p, before) == h + TiedWith(a[1..] + b, p, before);
      TiedWithConcat(a[1..], b, p, before);
      assert h + (TiedWith(a[1..], p, before) + TiedWith(b, p, before))
          == (h + TiedWith(a[1..], p, before)) + TiedWith(b, p, before);
    }
  }

  lemma {:induction false} TiedWithNone<T>(s: seq<T>, p: T, before: (T, T) -> bool)
    requires forall i :: 0 <= i < |s| ==> !Tied(before, s[i], p)
    ensures TiedWith(s, p, before) == []
  {
    if s != [] { TiedWithNone(s[1..], p, before); }
  }

  /** Inserting `x` adds it at the end of its tie class and leaves the other classes alone. */
  lemma {:induction false} InsertTiedWith<T(!new)>(x: T, s: seq<T>, p: T, before: (T, T) -> bool)
    requires StrictWeakOrder(before)
    requires Sorted(s, before)
    ensures TiedWith(Insert(x, s, before), p, before)
         == TiedWith(s, p, before) + (if Tied(before, x, p) then [x] else [])
  {
    if s == [] {
    } else if before(x, s[0]) {
      InsertAtFrontTiedWith(x, s, p, before);
    } else {
      SortedTail(s, before);
      InsertTiedWith(x, s[1..], p, before);
      var t := Insert(x, s[1..], before);
      var h := if Tied(before, s[0], p) then [s[0]] else [];
      var e := if Tied(before, x, p) then [x] else [];
      assert Insert(x, s, before) == [s[0]] + t;
      assert ([s[0]] + t)[0] == s[0] && ([s[0]] + t)[1..] == t;
      assert TiedWith([s[0]] + t, p, before) == h + TiedWith(t, p, before);
      assert h + (TiedWith(s[1..], p, before) + e) == (h + TiedWith(s[1..], p, before)) + e;
    }
  }

  lemma SortedTail<T>(s: seq<T>, before: (T, T) -> bool)
    requires s != [] && Sorted(s, before)
    ensures Sorted(s[1..], before)
  {
    assert forall i :: 0 <= i < |s[1..]| ==> s[1..][i] == s[i + 1];
  }

  /** The case of `InsertTiedWith` where `x` goes in front. */
  lemma {:induction false} InsertAtFrontTiedWith<T(!new)>(x: T, s: seq<T>, p: T, before: (T, T) -> bool)
    requires StrictWeakOrder(before)
    requires Sorted(s, before)
    requires s != [] && before(x, s[0])
    ensures TiedWith(Insert(x, s, before), p, before)
         == TiedWith(s, p, before) + (if Tied(before, x, p) then [x] else [])
  {
    if Tied(before, x, p) {
      forall i | 0 <= i < |s| ensures !Tied(before, s[i], p) {
        // s[i] does not precede s[0], so x precedes s[i]; x and s[i] cannot both tie with p.
        assert i == 0 || !before(s[i], s[0]);
        assert before(x, s[i]);
      }
      TiedWithNone(s, p, before);
    }
    assert Insert(x, s, before) == [x] + s;
    assert ([x] + s)[0] == x && ([x] + s)[1..] == s;
  }

  lemma TiedWithSnoc<T>(init: seq<T>, last: T, p: T, before: (T, T) -> bool)
    ensures TiedWith(init + [last], p, before)
         == TiedWith(init, p, before) + (if Tied(before, last, p) then [last] else [])
  {
    TiedWithConcat(init, [last], p, before);
    assert TiedWith([last], p, before)
        == (if Tied(before, last, p) then [last] else []) + TiedWith([], p, before);
  }

  /**
   * Stability: for every pivot `p`, the elements tied with `p` appear in the sorted
   * list in the same relative order as in the input.
   */
  lemma {:induction false} SortByStable<T(!new)>(s: seq<T>, p: T, before: (T, T) -> bool)
    requires StrictWeakOrder(before)
    ensures TiedWith(SortBy(s, before), p, before) == TiedWith(s, p, before)
  {
    if s != [] {
      var init, last := s[..|s| - 1], s[|s| - 1];
      SortByStable(init, p, before);
      SortBySorted(init, before);
      InsertTiedWith(last, SortBy(init, before), p, before);
      assert s == init + [last];
      TiedWithSnoc(init, last, p, before);
    }
  }
}
