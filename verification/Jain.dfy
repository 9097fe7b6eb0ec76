/**
 Jain's fairness index of a list of amounts: the square of the sum over the count times the sum of the
 squares.
 */
module Jain {

  // Products are written as functions, which keeps them out of the way of proofs that do not multiply.

  function Times(x: int, y: int): int {
    x * y
  }

  function Square(x: int): int {
    x * x
  }

  function Total(s: seq<nat>): nat {
    if s == [] then 0 else Total(s[..|s| - 1]) + s[|s| - 1]
  }

  function Squares(s: seq<nat>): int {
    if s == [] then 0 else Squares(s[..|s| - 1]) + Square(s[|s| - 1])
  }

  /** The squared distances from `x`. */
  function Distances(s: seq<nat>, x: nat): int {
    if s == [] then 0 else Distances(s[..|s| - 1], x) + Square(x - s[|s| - 1])
  }

  /** The squared differences of all pairs. */
  function Variation(s: seq<nat>): int {
    if s == [] then 0 else Variation(s[..|s| - 1]) + Distances(s[..|s| - 1], s[|s| - 1])
  }

  /** The products of all pairs. */
  function Overlap(s: seq<nat>): int {
    if s == [] then 0 else Overlap(s[..|s| - 1]) + Times(Total(s[..|s| - 1]), s[|s| - 1])
  }

  ghost predicate AllEqual(s: seq<nat>) {
    forall i, j :: 0 <= i < j < |s| ==> s[i] == s[j]
  }

  ghost predicate AtMostOneActive(s: seq<nat>) {
    forall i, j :: 0 <= i < j < |s| ==> s[i] == 0 || s[j] == 0
  }

  ghost predicate AllZero(s: seq<nat>) {
    forall i :: 0 <= i < |s| ==> s[i] == 0
  }

  /******* How far the index is from one *******/

  function DistancesBySums(n: int, q: int, t: int, x: int): int {
    q - 2 * (t * x) + n * (x * x)
  }

  lemma DistancesStep(n: int, q: int, t: int, x: int, y: int)
    ensures DistancesBySums(n + 1, q + Square(y), t + y, x) == DistancesBySums(n, q, t, x) + Square(x - y)
  {
  }

  lemma NoDistances(x: int)
    ensures DistancesBySums(0, 0, 0, x) == 0
  {
  }

  lemma {:induction false} DistancesAre(s: seq<nat>, x: nat)
    ensures Distances(s, x) == DistancesBySums(|s|, Squares(s), Total(s), x)
  {
    if s == [] {
      NoDistances(x);
    } else {
      var init, y := s[..|s| - 1], s[|s| - 1];
      DistancesAre(init, x);
      DistancesStep(|init|, Squares(init), Total(init), x, y);
    }
  }

  lemma VariationStep(n: int, q: int, t: int, x: int)
    ensures Times(n + 1, q + Square(x)) - Square(t + x) == Times(n, q) - Square(t) + DistancesBySums(n, q, t, x)
  {
  }

  /** The count times the sum of the squares exceeds the square of the sum by the variation. */
  lemma {:induction false} VariationIs(s: seq<nat>)
    ensures Times(|s|, Squares(s)) - Square(Total(s)) == Variation(s)
  {
    if s != [] {
      var init, x := s[..|s| - 1], s[|s| - 1];
      VariationIs(init);
      DistancesAre(init, x);
      VariationStep(|init|, Squares(init), Total(init), x);
    }
  }

  lemma SquareSign(x: int)
    ensures Square(x) >= 0
    ensures Square(x) == 0 <==> x == 0
  {
  }

  lemma {:induction false} DistancesSign(s: seq<nat>, x: nat)
    ensures Distances(s, x) >= 0
    ensures Distances(s, x) == 0 <==> forall i :: 0 <= i < |s| ==> s[i] == x
  {
    if s != [] {
      var init := s[..|s| - 1];
      DistancesSign(init, x);
      SquareSign(x - s[|s| - 1]);
      assert forall i :: 0 <= i < |init| ==> s[i] == init[i];
    }
  }

  lemma {:induction false} VariationSign(s: seq<nat>)
    ensures Variation(s) >= 0
    ensures Variation(s) == 0 <==> AllEqual(s)
  {
    if s != [] {
      var init, x := s[..|s| - 1], s[|s| - 1];
      VariationSign(init);
      DistancesSign(init, x);
      assert forall i :: 0 <= i < |init| ==> s[i] == init[i];
    }
  }

  /******* How far the index is from one over the count *******/

  lemma OverlapStep(q: int, t: int, o: int, x: int)
    requires Square(t) == q + 2 * o
    ensures Square(t + x) == q + Square(x) + 2 * (o + Times(t, x))
  {
  }

  /** The square of the sum exceeds the sum of the squares by twice the overlap. */
  lemma {:induction false} OverlapIs(s: seq<nat>)
    ensures Square(Total(s)) == Squares(s) + 2 * Overlap(s)
  {
    if s != [] {
      var init, x := s[..|s| - 1], s[|s| - 1];
      OverlapIs(init);
      OverlapStep(Squares(init), Total(init), Overlap(init), x);
    }
  }

  lemma ProductSign(x: nat, y: nat)
    ensures Times(x, y) >= 0
    ensures Times(x, y) == 0 <==> x == 0 || y == 0
  {
  }

  lemma {:induction false} TotalSign(s: seq<nat>)
    ensures Total(s) == 0 <==> AllZero(s)
    ensures Squares(s) >= 0
    ensures Squares(s) == 0 <==> AllZero(s)
  {
    if s != [] {
      var init := s[..|s| - 1];
      TotalSign(init);
      SquareSign(s[|s| - 1]);
      assert forall i :: 0 <= i < |init| ==> s[i] == init[i];
    }
  }

  lemma {:induction false} OverlapSign(s: seq<nat>)
    ensures Overlap(s) >= 0
    ensures Overlap(s) == 0 <==> AtMostOneActive(s)
  {
    if s != [] {
      var init, x := s[..|s| - 1], s[|s| - 1];
      OverlapSign(init);
      TotalSign(init);
      ProductSign(Total(init), x);
      assert forall i :: 0 <= i < |init| ==> s[i] == init[i];
    }
  }

  /******* The index *******/

  /**
   The square of the sum lies between the sum of the squares and the count times it: it is the former
   exactly if at most one amount is not zero, and the latter exactly if all are the same.
   */
  lemma {:induction false} SumsCompare(s: seq<nat>)
    ensures Squares(s) <= Square(Total(s)) <= Times(|s|, Squares(s))
    ensures Square(Total(s)) == Squares(s) <==> AtMostOneActive(s)
    ensures Square(Total(s)) == Times(|s|, Squares(s)) <==> AllEqual(s)
  {
    VariationIs(s);
    VariationSign(s);
    OverlapIs(s);
    OverlapSign(s);
  }

  /** The index, where it is defined. */
  function Index(n: nat, total: int, squares: int): real
    requires Times(n, squares) > 0
  {
    Square(total) as real / Times(n, squares) as real
  }

  /**
   Unless all amounts are zero, the index lies between one over the count, reached exactly if only one
   amount is not zero, and one, reached exactly if all are the same.
   */
  lemma {:induction false} IndexRange(s: seq<nat>)
    requires !AllZero(s)
    ensures Times(|s|, Squares(s)) > 0
    ensures 1.0 / |s| as real <= Index(|s|, Total(s), Squares(s)) <= 1.0
    ensures Index(|s|, Total(s), Squares(s)) == 1.0 / |s| as real <==> AtMostOneActive(s)
    ensures Index(|s|, Total(s), Squares(s)) == 1.0 <==> AllEqual(s)
  {
    SumsCompare(s);
    TotalSign(s);
    ProductSign(|s|, Squares(s));
    Fraction(|s|, Squares(s), Square(Total(s)));
  }

  lemma Fraction(n: nat, q: int, t: int)
    requires n > 0 && q > 0 && Times(n, q) > 0 && q <= t <= Times(n, q)
    ensures var f := t as real / Times(n, q) as real;
            1.0 / n as real <= f <= 1.0 && (f == 1.0 / n as real <==> t == q) && (f == 1.0 <==> t == Times(n, q))
  {
    var d := Times(n, q) as real;
    Quotients(q as real, t as real, d);
    Quotients(t as real, d, d);
    OverCount(n as real, q as real, d);
  }

  lemma OverCount(n: real, q: real, d: real)
    requires n > 0.0 && q > 0.0 && d == n * q
    ensures q / d == 1.0 / n
  {
  }

  lemma Quotients(x: real, y: real, d: real)
    requires x <= y && d > 0.0
    ensures x / d <= y / d && (x / d == y / d <==> x == y)
  {
  }
}
