/** Sums of a natural number per element; with a function into 0 and 1, a count. */
module Sums {

  function Sum<T>(s: seq<T>, f: T -> nat): nat {
    if s == [] then 0 else Sum(s[..|s| - 1], f) + f(s[|s| - 1])
  }

  lemma {:induction false} SumUpdate<T>(s: seq<T>, f: T -> nat, w: nat, v: T)
    requires w < |s|
    ensures Sum(s[w := v], f) == Sum(s, f) - f(s[w]) + f(v)
  {
    var init := s[..|s| - 1];
    if w < |init| {
      SumUpdate(init, f, w, v);
      assert s[w := v][..|s| - 1] == init[w := v];
    } else {
      assert s[w := v][..|s| - 1] == init;
    }
  }

  lemma SumAppend<T>(s: seq<T>, f: T -> nat, v: T)
    ensures Sum(s + [v], f) == Sum(s, f) + f(v)
  {
  }

  lemma {:induction false} SumBound<T>(s: seq<T>, f: T -> nat, bound: nat)
    requires forall v :: f(v) <= bound
    ensures Sum(s, f) <= bound * |s|
  {
    if s != [] {
      SumBound(s[..|s| - 1], f, bound);
    }
  }

  lemma {:induction false} SumZero<T>(s: seq<T>, f: T -> nat)
    requires Sum(s, f) == 0
    ensures forall w :: 0 <= w < |s| ==> f(s[w]) == 0
  {
    if s != [] {
      SumZero(s[..|s| - 1], f);
      assert forall w :: 0 <= w < |s| - 1 ==> s[w] == s[..|s| - 1][w];
    }
  }

  lemma {:induction false} SumFull<T>(s: seq<T>, f: T -> nat)
    requires forall v :: f(v) <= 1
    requires Sum(s, f) == |s|
    ensures forall w :: 0 <= w < |s| ==> f(s[w]) == 1
  {
    if s != [] {
      SumBound(s[..|s| - 1], f, 1);
      SumFull(s[..|s| - 1], f);
      assert forall w :: 0 <= w < |s| - 1 ==> s[w] == s[..|s| - 1][w];
    }
  }

  lemma {:induction false} SumRemove<T>(s: seq<T>, f: T -> nat, k: nat)
    requires k < |s|
    ensures Sum(s[..k] + s[k + 1..], f) == Sum(s, f) - f(s[k])
  {
    var init, last := s[..|s| - 1], s[|s| - 1];
    if k < |init| {
      SumRemove(init, f, k);
      assert s[..k] + s[k + 1..] == (init[..k] + init[k + 1..]) + [last];
      SumAppend(init[..k] + init[k + 1..], f, last);
    } else {
      assert s[..k] + s[k + 1..] == init;
    }
  }

  lemma {:induction false} SumAtLeast<T>(s: seq<T>, f: T -> nat, k: nat)
    requires k < |s|
    ensures f(s[k]) <= Sum(s, f)
  {
    if k < |s| - 1 {
      SumAtLeast(s[..|s| - 1], f, k);
    }
  }

  lemma SumAtLeastTwo<T>(s: seq<T>, f: T -> nat, j: nat, k: nat)
    requires j < k < |s|
    ensures f(s[j]) + f(s[k]) <= Sum(s, f)
  {
    SumRemove(s, f, k);
    SumAtLeast(s[..k] + s[k + 1..], f, j);
  }

  lemma {:induction false} SumSame<T>(s: seq<T>, f: T -> nat, g: T -> nat)
    requires forall v :: f(v) == g(v)
    ensures Sum(s, f) == Sum(s, g)
  {
    if s != [] {
      SumSame(s[..|s| - 1], f, g);
    }
  }

  lemma {:induction false} SumAllZero<T>(s: seq<T>, f: T -> nat)
    requires forall k :: 0 <= k < |s| ==> f(s[k]) == 0
    ensures Sum(s, f) == 0
  {
    if s != [] {
      SumAllZero(s[..|s| - 1], f);
    }
  }

  lemma {:induction false} SumPositive<T>(s: seq<T>, f: T -> nat) returns (k: nat)
    requires Sum(s, f) > 0
    ensures k < |s| && f(s[k]) > 0
  {
    if f(s[|s| - 1]) > 0 {
      k := |s| - 1;
    } else {
      k := SumPositive(s[..|s| - 1], f);
    }
  }
}
