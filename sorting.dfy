/**
 * A stable sort by a comparison predicate, the behaviour of JavaScript's `Array.prototype.sort`
 * (stable since ES2019) and Python's `sorted`. `le(a, b)` means "a may come before b".
 */
module Sorting {
  import opened Seqs

  /** `le` is total and transitive: a total preorder, as a comparator returning `a - b` induces. */
  ghost predicate TotalPreorder<T(!new)>(le: (T, T) -> bool) {
    (forall a, b :: le(a, b) || le(b, a)) &&
    (forall a, b, c :: le(a, b) && le(b, c) ==> le(a, c))
  }

  predicate Sorted<T>(s: seq<T>, le: (T, T) -> bool) {
    forall i, j | 0 <= i < j < |s| :: le(s[i], s[j])
  }

  /** Insert `x` after every element that may precede it: the step that keeps the sort stable. */
  function Insert<T>(x: T, s: seq<T>, le: (T, T) -> bool): (r: seq<T>)
    ensures multiset(r) == multiset(s) + multiset{x}
  {
    if s == [] then [x]
    else
      assert s == [s[0]] + s[1..];
      if le(s[0], x) then [s[0]] + Insert(x, s[1..], le) else [x] + s
  }

  function Sort<T>(s: seq<T>, le: (T, T) -> bool): (r: seq<T>)
    ensures multiset(r) == multiset(s)
  {
    if s == [] then []
    else
      assert s == s[..|s| - 1] + [s[|s| - 1]];
      Insert(s[|s| - 1], Sort(s[..|s| - 1], le), le)
  }

  lemma {:induction false} InsertSorted<T(!new)>(x: T, s: seq<T>, le: (T, T) -> bool)
    requires TotalPreorder(le) && Sorted(s, le)
    ensures Sorted(Insert(x, s, le), le)
  {
    if s != [] && le(s[0], x) {
      InsertSorted(x, s[1..], le);
      var r := Insert(x, s, le);
      forall j | 0 < j < |r| ensures le(r[0], r[j]) {
        assert r[j] in multiset(s[1..]) + multiset{x};
        if r[j] == x {
        } else {
          assert r[j] in s[1..];
        }
      }
    }
  }

  /** The sort orders its result. */
  lemma {:induction false} SortSorted<T(!new)>(s: seq<T>, le: (T, T) -> bool)
    requires TotalPreorder(le)
    ensures Sorted(Sort(s, le), le)
  {
    if s != [] {
      SortSorted(s[..|s| - 1], le);
      InsertSorted(s[|s| - 1], Sort(s[..|s| - 1], le), le);
    }
  }

  /** `p` picks out elements that are all equivalent under `le`. */
  ghost predicate OneClass<T(!new)>(p: T -> bool, le: (T, T) -> bool) {
    forall a, b :: p(a) && p(b) ==> le(a, b)
  }

  lemma {:induction false} InsertStable<T(!new)>(x: T, s: seq<T>, le: (T, T) -> bool, p: T -> bool)
    requires TotalPreorder(le) && Sorted(s, le) && OneClass(p, le)
    ensures Filter(Insert(x, s, le), p) == Filter(s, p) + (if p(x) then [x] else [])
  {
    if s == [] {
    } else if le(s[0], x) {
      InsertStable(x, s[1..], le, p);
      var head := if p(s[0]) then [s[0]] else [];
      var tail := if p(x) then [x] else [];
      assert Filter(Insert(x, s, le), p) == head + Filter(Insert(x, s[1..], le), p);
      assert Filter(s, p) == head + Filter(s[1..], p);
      AppendAssoc(head, Filter(s[1..], p), tail);
    } else {
      assert Insert(x, s, le) == [x] + s;
      InsertFrontStable(x, s, le, p);
    }
  }

  /** Inserting in front of every element keeps the order within a class. */
  lemma InsertFrontStable<T(!new)>(x: T, s: seq<T>, le: (T, T) -> bool, p: T -> bool)
    requires TotalPreorder(le) && Sorted(s, le) && OneClass(p, le)
    requires s != [] && !le(s[0], x)
    ensures Filter([x] + s, p) == Filter(s, p) + (if p(x) then [x] else [])
  {
    assert ([x] + s)[0] == x && ([x] + s)[1..] == s;
    if p(x) {
      forall e | e in s ensures !p(e) {
        var i :| 0 <= i < |s| && s[i] == e;
        assert le(s[0], e);
      }
      FilterNone(s, p);
      assert Filter([x] + s, p) == [x] + Filter(s, p);
    } else {
      assert Filter([x] + s, p) == Filter(s, p);
    }
  }

  /**
   * Stability: among elements that compare equal, the sort keeps their input order. For any class
   * `p` of mutually equivalent elements, the elements of that class appear in the same order.
   */
  lemma {:induction false} SortStable<T(!new)>(s: seq<T>, le: (T, T) -> bool, p: T -> bool)
    requires TotalPreorder(le) && OneClass(p, le)
    ensures Filter(Sort(s, le), p) == Filter(s, p)
  {
    if s != [] {
      var init, last := s[..|s| - 1], s[|s| - 1];
      SortStable(init, le, p);
      SortSorted(init, le);
      InsertStable(last, Sort(init, le), le, p);
      FilterLast(s, p);
    }
  }

}
