/** Filtering of sequences, and removal of an element by value. */
module Filters {

  function Filter<T>(s: seq<T>, f: T -> bool): seq<T>
  {
    if s == [] then []
    else Filter(s[..|s| - 1], f) + if f(s[|s| - 1]) then [s[|s| - 1]] else []
  }

  lemma {:induction false} FilterMembers<T(!new)>(s: seq<T>, f: T -> bool)
    ensures forall x :: x in Filter(s, f) <==> x in s && f(x)
  {
    if s != [] {
      FilterMembers(s[..|s| - 1], f);
    }
  }

  predicate Distinct<T(==)>(s: seq<T>) {
    forall i, j :: 0 <= i < j < |s| ==> s[i] != s[j]
  }

  /** Without the first occurrence of `x`. */
  function Remove<T(==)>(s: seq<T>, x: T): seq<T> {
    if s == [] then [] else if s[0] == x then s[1..] else [s[0]] + Remove(s[1..], x)
  }

  lemma FilterAppend<T(!new)>(s: seq<T>, x: T, f: T -> bool)
    ensures Filter(s + [x], f) == Filter(s, f) + if f(x) then [x] else []
  {
  }

  lemma {:induction false} FilterConcat<T(!new)>(s: seq<T>, t: seq<T>, f: T -> bool)
    ensures Filter(s + t, f) == Filter(s, f) + Filter(t, f)
  {
    if t == [] {
      assert s + t == s;
    } else {
      FilterConcat(s, t[..|t| - 1], f);
      assert s + t == (s + t[..|t| - 1]) + [t[|t| - 1]];
      FilterAppend(s + t[..|t| - 1], t[|t| - 1], f);
    }
  }

  lemma {:induction false} FilterSame<T(!new)>(s: seq<T>, f: T -> bool, g: T -> bool)
    requires forall x :: x in s ==> f(x) == g(x)
    ensures Filter(s, f) == Filter(s, g)
  {
    if s != [] {
      FilterSame(s[..|s| - 1], f, g);
    }
  }

  lemma {:induction false} FilterAll<T(!new)>(s: seq<T>, f: T -> bool)
    requires forall x :: x in s ==> f(x)
    ensures Filter(s, f) == s
  {
    if s != [] {
      var init, last := s[..|s| - 1], s[|s| - 1];
      assert last in s && s == init + [last];
      FilterAll(init, f);
    }
  }

  lemma {:induction false} FilterNone<T(!new)>(s: seq<T>, f: T -> bool)
    requires forall x :: x in s ==> !f(x)
    ensures Filter(s, f) == []
  {
    if s != [] {
      FilterNone(s[..|s| - 1], f);
    }
  }

  lemma {:induction false} FilterFilter<T(!new)>(s: seq<T>, f: T -> bool, g: T -> bool, h: T -> bool)
    requires forall x :: x in s ==> h(x) == (f(x) && g(x))
    ensures Filter(Filter(s, f), g) == Filter(s, h)
  {
    if s != [] {
      var init, last := s[..|s| - 1], s[|s| - 1];
      assert last in s;
      FilterFilter(init, f, g, h);
      if f(last) {
        FilterAppend(Filter(init, f), last, g);
      } else {
        assert Filter(s, f) == Filter(init, f);
      }
    }
  }

  lemma {:induction false} FilterDistinct<T(!new)>(s: seq<T>, f: T -> bool)
    requires Distinct(s)
    ensures Distinct(Filter(s, f))
  {
    if s != [] {
      var init := s[..|s| - 1];
      FilterDistinct(init, f);
      FilterMembers(init, f);
      assert s[|s| - 1] !in Filter(init, f);
    }
  }

  /** Among distinct elements, removing the first occurrence removes the element. */
  lemma {:induction false} RemoveIsFilter<T(!new)>(s: seq<T>, x: T, f: T -> bool)
    requires Distinct(s) && forall y :: f(y) == (y != x)
    ensures Remove(s, x) == Filter(s, f)
  {
    if s != [] {
      assert s == [s[0]] + s[1..];
      FilterConcat([s[0]], s[1..], f);
      FilterAppend([], s[0], f);
      assert [] + [s[0]] == [s[0]];
      if s[0] == x {
        FilterAll(s[1..], f);
      } else {
        RemoveIsFilter(s[1..], x, f);
      }
    }
  }
}
