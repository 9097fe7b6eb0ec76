/** The scale under a timeline: the step between its marks, and the marks of a stretch of time. */
module ScaleTicks {

  function Power(k: nat): (p: int)
    ensures p >= 1
  {
    if k == 0 then 1 else 10 * Power(k - 1)
  }

  ghost predicate IsPower(p: int) {
    exists k: nat :: p == Power(k)
  }

  ghost predicate IsPowerOfTen(x: real) {
    x == x.Floor as real && IsPower(x.Floor)
  }

  lemma NextPower(p: int)
    requires IsPower(p)
    ensures IsPower(10 * p)
  {
    var k: nat :| p == Power(k);
    assert Power(k + 1) == 10 * p;
  }

  lemma SmallerPower(p: int)
    requires IsPower(p) && p != 1
    ensures p >= 10 && p % 10 == 0 && IsPower(p / 10)
  {
    var k: nat :| p == Power(k);
    assert Power(k) == 10 * Power(k - 1);
  }

  lemma {:induction false} PowersApart(j: nat, k: nat)
    requires j < k
    ensures 10 * Power(j) <= Power(k)
  {
    if j < k - 1 {
      PowersApart(j, k - 1);
    }
  }

  /** The step of a stretch of time: the power of ten that goes into it more than once and at most ten times. */
  ghost predicate IsStep(p: int, stretch: real) {
    IsPower(p) && p as real < stretch <= (10 * p) as real
  }

  lemma StepIsUnique(p: int, q: int, stretch: real)
    requires IsStep(p, stretch) && IsStep(q, stretch)
    ensures p == q
  {
    var j: nat :| p == Power(j);
    var k: nat :| q == Power(k);
    if j < k {
      PowersApart(j, k);
    } else if k < j {
      PowersApart(k, j);
    }
  }

  /** Python's `int` of a number. */
  function Truncate(x: real): int {
    if x >= 0.0 then x.Floor else -(-x).Floor
  }

  /** How many whole times a step goes into a time, counted down for times before zero. */
  function Quotient(x: real, d: real): int
    requires d > 0.0
  {
    (x / d).Floor
  }

  function Times(x: real, y: real): real {
    x * y
  }

  /** Python's remainder, which has the sign of a positive divisor. */
  function Modulo(x: real, d: real): real
    requires d > 0.0
  {
    x - Times(Quotient(x, d) as real, d)
  }

  lemma Scaled(a: real, b: real, d: real)
    requires a <= b && d > 0.0
    ensures a * d <= b * d
  {
  }

  lemma ScaledBack(a: real, b: real, d: real)
    requires a * d <= b * d && d > 0.0
    ensures a <= b
  {
  }

  function Multiple(m: int, d: int): int {
    m * d
  }

  lemma MultiplesIncrease(a: int, b: int, d: int)
    requires d > 0
    ensures a < b <==> Multiple(a, d) < Multiple(b, d)
    ensures Multiple(a, d) + d == Multiple(a + 1, d)
  {
  }

  /** The multiples up to a time are those of the whole numbers up to its quotient. */
  lemma MultipleUpTo(x: real, d: int, m: int)
    requires d > 0
    ensures Multiple(m, d) as real <= x <==> m <= Quotient(x, d as real)
  {
    var y := x / d as real;
    assert (m * d) as real == m as real * d as real;
    assert x == y * d as real;
    if (m * d) as real <= x {
      ScaledBack(m as real, y, d as real);
    } else if m as real <= y {
      Scaled(m as real, y, d as real);
      assert false;
    }
  }

  /** The multiples of `d` after `lo` and up to `hi`, in order. */
  function Marks(lo: real, hi: real, d: int): seq<int>
    requires d > 0
  {
    var first, last := Quotient(lo, d as real) + 1, Quotient(hi, d as real);
    seq(if first <= last then last - first + 1 else 0, i => Multiple(first + i, d))
  }

  lemma MarksAreMultiples(lo: real, hi: real, d: int, x: int)
    requires d > 0
    ensures x in Marks(lo, hi, d) <==> x % d == 0 && lo < x as real <= hi
  {
    var marks, first := Marks(lo, hi, d), Quotient(lo, d as real) + 1;
    if x in marks {
      var i :| 0 <= i < |marks| && marks[i] == x;
      MultipleUpTo(lo, d, first + i);
      MultipleUpTo(hi, d, first + i);
      Remainder(first + i, d);
    }
    if x % d == 0 && lo < x as real <= hi {
      var m := x / d;
      assert x == Multiple(m, d);
      MultipleUpTo(lo, d, m);
      MultipleUpTo(hi, d, m);
      assert marks[m - first] == x;
    }
  }

  lemma MarksAscend(lo: real, hi: real, d: int, i: nat, j: nat)
    requires d > 0 && i < j < |Marks(lo, hi, d)|
    ensures Marks(lo, hi, d)[i] < Marks(lo, hi, d)[j]
  {
    var first := Quotient(lo, d as real) + 1;
    MultiplesIncrease(first + i, first + j, d);
  }

  lemma Remainder(m: int, d: int)
    requires d > 0
    ensures Multiple(m, d) % d == 0
  {
    var q := Multiple(m, d) / d;
    assert (m - q) * d == m * d - q * d == Multiple(m, d) % d;
    SmallMultiple(m - q, d);
  }

  lemma SmallMultiple(k: int, d: int)
    requires d > 0 && 0 <= k * d < d
    ensures k == 0
  {
  }

  /** With the step of its stretch a scale has at least one mark and at most ten. */
  lemma MarkCount(lo: real, hi: real, d: int)
    requires d > 0 && d as real < hi - lo <= (10 * d) as real
    ensures 1 <= |Marks(lo, hi, d)| <= 10
  {
    var y, z := lo / d as real, hi / d as real;
    assert y * d as real == lo && z * d as real == hi;
    assert (z - y) * d as real == hi - lo;
    if z - y <= 1.0 {
      Scaled(z - y, 1.0, d as real);
      assert false;
    }
    if z - y > 10.0 {
      ScaledBack(z - y, 10.0, d as real);
      assert false;
    }
  }

  /** Every mark is also a mark of the tenth of the step. */
  lemma MarksAreSubMarks(lo: real, hi: real, d: int, x: int)
    requires d > 0 && x in Marks(lo, hi, 10 * d)
    ensures x in Marks(lo, hi, d)
  {
    MarksAreMultiples(lo, hi, 10 * d, x);
    MarksAreMultiples(lo, hi, d, x);
    var m := x / (10 * d);
    assert x == (10 * m) * d;
    Remainder(10 * m, d);
  }

  datatype Row = Row(ticks: seq<int>, positions: seq<real>)

  /** The row holds the multiples of `d` after `lo` and up to `hi`, each placed in proportion. */
  predicate IsRow(row: Row, lo: real, hi: real, d: int, width: real)
    requires d > 0
  {
    && row.ticks == Marks(lo, hi, d) && |row.positions| == |row.ticks|
    && forall i :: 0 <= i < |row.ticks| ==> Placed(row.positions[i], row.ticks[i], lo, hi, width)
  }

  /** How far the drawing gets before `range` rejects a step of zero. */
  datatype Drawing = Nothing | MainMarks(main: Row) | AllMarks(main: Row, sub: Row)

  class ScaleRenderer {
    var lo: real
    var hi: real
    var delta: real
    var width: real

    /** The step is a power of ten, or a tenth. */
    ghost predicate Valid()
      reads this
    {
      delta == 0.1 || IsPowerOfTen(delta)
    }

    method SetBounds(lo: real, hi: real)
      modifies this`lo, this`hi
      ensures this.lo == lo && this.hi == hi
    {
      this.lo := lo;
      this.hi := hi;
    }

    method Layout(width: real)
      modifies this`delta, this`width
      ensures Valid() && this.width == width
      ensures hi - lo > 1.0 ==> delta == delta.Floor as real && IsStep(delta.Floor, hi - lo)
      ensures hi - lo == 1.0 ==> delta == 0.1
      ensures hi - lo < 1.0 ==> delta == 1.0
      ensures delta >= 10.0 <==> hi - lo > 10.0
    {
      var dataDelta := hi - lo;
      var closest := 1;
      assert Power(0) == 1;
      while (closest * 10) as real < dataDelta
        invariant closest >= 1 && IsPower(closest)
        invariant closest == 1 || closest as real < dataDelta
        decreases dataDelta.Floor - closest
      {
        NextPower(closest);
        closest := closest * 10;
      }
      assert closest as real * (dataDelta / closest as real) == dataDelta;
      if dataDelta / closest as real == 0.0 {
        delta := closest as real;
      } else if dataDelta / closest as real == 1.0 {
        delta := closest as real / 10.0;
      } else {
        delta := closest as real;
      }
      this.width := width;
      if closest != 1 {
        SmallerPower(closest);
      }
      assert hi - lo > 1.0 ==> delta == closest as real && IsStep(closest, hi - lo);
    }

    /**
     One row of marks.  A step below one is cut down to zero, which Python's `range` rejects; that is
     the case without a row.
     */
    method DrawRow(step: real) returns (drawn: bool, row: Row)
      requires step == 0.1 || IsPowerOfTen(step)
      ensures drawn <==> step >= 1.0
      ensures drawn ==> step == step.Floor as real && IsRow(row, lo, hi, step.Floor, width)
    {
      var start := lo - Modulo(lo, step) + step;
      var end := hi - Modulo(hi, step);
      StepIsWhole(step);
      var d := Truncate(step);
      if d == 0 {
        return false, Row([], []);
      }
      var x, stop := Truncate(start), Truncate(end + step);
      ghost var first, last, marks := Quotient(lo, step) + 1, Quotient(hi, step), Marks(lo, hi, d);
      NextMark(lo, d);
      NextMark(hi, d);
      var ticks, positions: seq<real> := [], [];
      while x < stop
        invariant x == Multiple(first + |ticks|, d)
        invariant |positions| == |ticks| <= |marks| && ticks == marks[..|ticks|]
        invariant forall i :: 0 <= i < |ticks| ==> Placed(positions[i], ticks[i], lo, hi, width)
        decreases stop - x
      {
        MultiplesIncrease(first + |ticks|, last + 1, d);
        assert marks[|ticks|] == x;
        MarksAreMultiples(lo, hi, d, x);
        var position := Position(x as real - lo, hi - lo, width);
        PlacedInside(position, x, lo, hi, width);
        ticks, positions := ticks + [x], positions + [position];
        x := x + d;
      }
      MultiplesIncrease(first + |ticks|, last + 1, d);
      drawn, row := true, Row(ticks, positions);
    }

    /**
     The marks, and the marks of a tenth of the step between them.  Drawing succeeds exactly for steps
     of ten and more: a step of one fails at the second row, a tenth at the first.
     */
    method Draw() returns (drawing: Drawing)
      requires Valid()
      ensures drawing.Nothing? <==> delta < 1.0
      ensures drawing.AllMarks? <==> delta >= 10.0
      ensures !drawing.Nothing? ==> delta == delta.Floor as real && IsRow(drawing.main, lo, hi, delta.Floor, width)
      ensures drawing.AllMarks? ==> delta.Floor % 10 == 0 && IsRow(drawing.sub, lo, hi, delta.Floor / 10, width)
    {
      var drawn, main := DrawRow(delta);
      if !drawn {
        return Nothing;
      }
      TenthIsStep(delta);
      var drawnSub, sub := DrawRow(delta / 10.0);
      drawing := if drawnSub then AllMarks(main, sub) else MainMarks(main);
    }
  }

  lemma TenthIsStep(delta: real)
    requires IsPowerOfTen(delta)
    ensures delta / 10.0 == 0.1 || IsPowerOfTen(delta / 10.0)
    ensures delta >= 10.0 <==> delta / 10.0 >= 1.0
    ensures delta >= 10.0 ==> delta.Floor % 10 == 0 && delta.Floor / 10 == (delta / 10.0).Floor
  {
    var p := delta.Floor;
    if p != 1 {
      SmallerPower(p);
      assert delta / 10.0 == (p / 10) as real;
    }
  }

  /** Where a mark goes that lies `part` of the way into a stretch drawn `width` wide. */
  function Position(part: real, whole: real, width: real): real
    requires whole != 0.0
  {
    part * width / whole
  }

  lemma StepIsWhole(step: real)
    requires step == 0.1 || IsPowerOfTen(step)
    ensures Truncate(step) == 0 <==> step < 1.0
    ensures Truncate(step) != 0 ==> Truncate(step) > 0 && step == Truncate(step) as real
    ensures Truncate(step) == step.Floor
  {
  }

  /** A time less its remainder and plus one step is the next multiple of the step. */
  lemma NextMark(x: real, d: int)
    requires d > 0
    ensures Truncate(x - Modulo(x, d as real) + d as real) == Multiple(Quotient(x, d as real) + 1, d)
  {
  }

  predicate Placed(position: real, tick: int, lo: real, hi: real, width: real) {
    (width > 0.0 ==> 0.0 < position <= width) && position * (hi - lo) == (tick as real - lo) * width
  }

  lemma PlacedInside(position: real, tick: int, lo: real, hi: real, width: real)
    requires lo < tick as real <= hi && position == Position(tick as real - lo, hi - lo, width)
    ensures Placed(position, tick, lo, hi, width)
  {
    var part, whole := tick as real - lo, hi - lo;
    assert position * whole == part * width;
    if width > 0.0 {
      assert part * width > 0.0;
      assert position <= 0.0 ==> position * whole <= 0.0;
      Scaled(part, whole, width);
      assert width * whole == whole * width;
      ScaledBack(position, width, whole);
    }
  }
}
