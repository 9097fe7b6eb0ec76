/**
 The byte counters of the receiving flows of the DCTCP example, kept in 64 bits, and the fairness
 reported from them.
 */
module Fairness {
  import J = Jain

  const Modulus: int := 0x1_0000_0000_0000_0000

  newtype uint64 = x: int | 0 <= x < 0x1_0000_0000_0000_0000

  /** What is left of a nonnegative number in 64 bits. */
  function Wrap(x: nat): uint64 {
    (x % Modulus) as uint64
  }

  function Values(s: seq<uint64>): (v: seq<nat>)
    ensures |v| == |s|
  {
    seq(|s|, i requires 0 <= i < |s| => s[i] as nat)
  }

  /** A ratio of doubles, which may be divided by zero. */
  datatype Ratio = NotANumber | Infinite | Number(value: real)

  function DivideByZero(x: uint64): Ratio {
    if x == 0 then NotANumber else Infinite
  }

  function Divide(x: uint64, y: uint64): Ratio {
    if y == 0 then DivideByZero(x) else Number(x as real / y as real)
  }

  /** The index as it is printed, from exact sums that are cut down to 64 bits. */
  function PrintedIndex(n: nat, total: nat, squares: nat): Ratio {
    Divide(Wrap(J.Square(Wrap(total) as nat)), Wrap(J.Times(n, Wrap(squares) as nat)))
  }

  /******* When nothing wraps *******/

  /** No sum and no product on the way to the index needs more than 64 bits. */
  ghost predicate NothingWraps(s: seq<nat>) {
    && (forall k :: 0 <= k < |s| ==> J.Square(s[k]) < Modulus)
    && (forall k :: 0 <= k <= |s| ==> J.Total(s[..k]) < Modulus && J.Squares(s[..k]) < Modulus)
    && J.Square(J.Total(s)) < Modulus
    && J.Times(|s|, J.Squares(s)) < Modulus
  }

  lemma {:induction false} PrefixesAreSmaller(s: seq<nat>, k: nat)
    requires k <= |s|
    ensures J.Total(s[..k]) <= J.Total(s)
    ensures 0 <= J.Squares(s[..k]) <= J.Squares(s)
  {
    J.TotalSign(s[..k]);
    if k < |s| {
      var init := s[..|s| - 1];
      PrefixesAreSmaller(init, k);
      assert init[..k] == s[..k];
      J.SquareSign(s[|s| - 1]);
    } else {
      assert s[..k] == s;
    }
  }

  lemma MemberIsSmaller(s: seq<nat>, k: nat)
    requires k < |s|
    ensures J.Square(s[k]) <= J.Squares(s)
  {
    PrefixesAreSmaller(s, k + 1);
    assert s[..k + 1][..k] == s[..k];
    J.TotalSign(s[..k]);
  }

  lemma SquareDominates(x: nat)
    ensures x <= J.Square(x)
  {
  }

  lemma CountDominates(n: nat, q: nat)
    requires n > 0
    ensures q <= J.Times(n, q)
  {
  }

  /** The last product is the largest of all: nothing wraps exactly if that one does not. */
  lemma LastProductDecides(s: seq<nat>)
    ensures NothingWraps(s) <==> J.Times(|s|, J.Squares(s)) < Modulus
  {
    if J.Times(|s|, J.Squares(s)) < Modulus {
      J.SumsCompare(s);
      SquareDominates(J.Total(s));
      if |s| > 0 {
        J.TotalSign(s);
        CountDominates(|s|, J.Squares(s));
      }
      forall k | 0 <= k <= |s| ensures J.Total(s[..k]) < Modulus && J.Squares(s[..k]) < Modulus {
        PrefixesAreSmaller(s, k);
      }
      forall k | 0 <= k < |s| ensures J.Square(s[k]) < Modulus {
        MemberIsSmaller(s, k);
      }
    }
  }

  lemma {:induction false} SquaresBound(s: seq<nat>, largest: nat)
    requires forall i :: 0 <= i < |s| ==> s[i] <= largest
    ensures J.Squares(s) <= J.Times(|s|, J.Square(largest))
  {
    if s != [] {
      var x := s[|s| - 1];
      SquaresBound(s[..|s| - 1], largest);
      SquaresGrow(x, largest);
      Distribute(|s| - 1, J.Square(largest));
    } else {
      Nothing(J.Square(largest));
    }
  }

  lemma Nothing(x: int)
    ensures J.Times(0, x) == 0
  {
  }

  lemma Distribute(n: int, x: int)
    ensures J.Times(n + 1, x) == J.Times(n, x) + x
  {
  }

  lemma SquaresGrow(x: nat, y: nat)
    requires x <= y
    ensures J.Square(x) <= J.Square(y)
  {
  }

  lemma TimesGrows(n: nat, x: int, y: int)
    requires x <= y
    ensures J.Times(n, x) <= J.Times(n, y)
  {
  }

  lemma TimesTwice(n: int, x: int)
    ensures J.Times(n, J.Times(n, J.Square(x))) == J.Square(J.Times(n, x))
  {
  }

  /** Nothing wraps while the count times the largest counter fits into 32 bits. */
  lemma SmallCountersFit(s: seq<nat>, largest: nat)
    requires forall i :: 0 <= i < |s| ==> s[i] <= largest
    requires |s| * largest < 0x1_0000_0000
    ensures NothingWraps(s)
  {
    SquaresBound(s, largest);
    TimesGrows(|s|, J.Squares(s), J.Times(|s|, J.Square(largest)));
    TimesTwice(|s|, largest);
    SquaresGrow(J.Times(|s|, largest), 0xFFFF_FFFF);
    LastProductDecides(s);
  }

  /** At 1 Gbps no flow can exceed 125000000 bytes in a second: the default window is safe for 20 flows. */
  lemma DefaultWindowFits(s: seq<nat>)
    requires |s| <= 20 && forall i :: 0 <= i < |s| ==> s[i] <= 125000000
    ensures NothingWraps(s)
  {
    SmallCountersFit(s, 125000000);
  }

  lemma SmallWraps(x: nat)
    requires x < Modulus
    ensures Wrap(x) as nat == x
  {
  }

  lemma SmallIndex(n: nat, total: nat, squares: nat)
    requires total < Modulus && squares < Modulus
    requires 0 <= J.Square(total) < Modulus && 0 <= J.Times(n, squares) < Modulus
    ensures J.Times(n, squares) == 0 && J.Square(total) == 0 ==> PrintedIndex(n, total, squares) == NotANumber
    ensures J.Times(n, squares) > 0 ==> PrintedIndex(n, total, squares) == Number(J.Index(n, total, squares))
  {
    SmallWraps(total);
    SmallWraps(squares);
    SmallWraps(J.Square(total));
    SmallWraps(J.Times(n, squares));
  }

  /** Where the last product, and so nothing, wraps, what is printed is Jain's index. */
  lemma PrintedIndexIsExact(s: seq<nat>)
    requires J.Times(|s|, J.Squares(s)) < Modulus
    ensures J.AllZero(s) ==> PrintedIndex(|s|, J.Total(s), SquaresOf(s)) == NotANumber
    ensures !J.AllZero(s) ==> J.Times(|s|, J.Squares(s)) > 0
    ensures !J.AllZero(s) ==>
              PrintedIndex(|s|, J.Total(s), SquaresOf(s)) == Number(J.Index(|s|, J.Total(s), J.Squares(s)))
  {
    LastProductDecides(s);
    assert s[..|s|] == s;
    J.TotalSign(s);
    J.SquareSign(J.Total(s));
    J.ProductSign(|s|, J.Squares(s));
    SmallIndex(|s|, J.Total(s), SquaresOf(s));
  }

  function SquaresOf(s: seq<nat>): nat {
    J.TotalSign(s);
    J.Squares(s)
  }

  /******* When the printed index is right in spite of wrapping *******/

  lemma WholeModuliVanish(x: nat, y: nat)
    ensures Wrap(x + y * Modulus) == Wrap(x)
  {
  }

  lemma WrapTimes(n: nat, q: nat)
    ensures J.Times(n, Wrap(q) as nat) >= 0 && J.Times(n, q) >= 0
    ensures Wrap(J.Times(n, Wrap(q) as nat)) == Wrap(J.Times(n, q))
  {
    var k, r := q / Modulus, Wrap(q) as nat;
    J.ProductSign(n, r);
    J.ProductSign(n, k);
    Expand(n, k, r);
    WholeModuliVanish(J.Times(n, r), J.Times(n, k));
  }

  lemma Expand(n: nat, k: nat, r: nat)
    ensures J.Times(n, k * Modulus + r) == J.Times(n, r) + J.Times(n, k) * Modulus
  {
  }

  lemma WrapSquare(t: nat)
    ensures J.Square(Wrap(t) as nat) >= 0 && J.Square(t) >= 0
    ensures Wrap(J.Square(Wrap(t) as nat)) == Wrap(J.Square(t))
  {
    var k, r := t / Modulus, Wrap(t) as nat;
    J.SquareSign(t);
    J.SquareSign(r);
    J.ProductSign(k, 2 * r + k * Modulus);
    ExpandSquare(k, r);
    WholeModuliVanish(J.Square(r), J.Times(k, 2 * r + k * Modulus));
  }

  lemma ExpandSquare(k: nat, r: nat)
    ensures J.Square(k * Modulus + r) == J.Square(r) + J.Times(k, 2 * r + k * Modulus) * Modulus
  {
    var m := k * Modulus;
    assert (m + r) * (m + r) == r * r + m * (2 * r + m);
  }

  /** It makes no difference that the sums are cut down before they are multiplied. */
  lemma PrintedIndexMeans(n: nat, total: nat, squares: nat)
    ensures J.Square(total) >= 0 && J.Times(n, squares) >= 0
    ensures PrintedIndex(n, total, squares) == Divide(Wrap(J.Square(total)), Wrap(J.Times(n, squares)))
  {
    WrapSquare(total);
    WrapTimes(n, squares);
  }

  /**
   There is no number exactly if the count times the sum of squares is a multiple of 2^64: no ratio at
   all if the square of the sum is one as well, and infinity if it is not.
   */
  lemma {:induction false} NoNumberExactly(s: seq<nat>)
    ensures J.Square(J.Total(s)) >= 0 && J.Times(|s|, J.Squares(s)) >= 0
    ensures var printed := PrintedIndex(|s|, J.Total(s), SquaresOf(s));
      && (printed.Number? <==> J.Times(|s|, J.Squares(s)) % Modulus != 0)
      && (printed == NotANumber
          <==> J.Times(|s|, J.Squares(s)) % Modulus == 0 && J.Square(J.Total(s)) % Modulus == 0)
      && (printed == Infinite
          <==> J.Times(|s|, J.Squares(s)) % Modulus == 0 && J.Square(J.Total(s)) % Modulus != 0)
  {
    PrintedIndexMeans(|s|, J.Total(s), SquaresOf(s));
  }

  /** What 64 bits cut off two numbers is in the proportion of what they leave. */
  predicate CutInProportion(t: nat, d: nat) {
    J.Times(t / Modulus, Wrap(d) as int) == J.Times(d / Modulus, Wrap(t) as int)
  }

  /**
   The index that is printed is Jain's exactly if there is a number, and wrapping cuts both terms of
   the fraction in proportion; as it does when nothing wraps.
   */
  lemma PrintedIndexIsRight(s: seq<nat>)
    requires !J.AllZero(s)
    ensures J.Times(|s|, J.Squares(s)) > 0 && J.Square(J.Total(s)) >= 0
    ensures PrintedIndex(|s|, J.Total(s), SquaresOf(s)) == Number(J.Index(|s|, J.Total(s), J.Squares(s)))
       <==> J.Times(|s|, J.Squares(s)) % Modulus != 0
            && CutInProportion(J.Square(J.Total(s)), J.Times(|s|, J.Squares(s)))
  {
    J.TotalSign(s);
    J.ProductSign(|s|, J.Squares(s));
    PrintedIndexMeans(|s|, J.Total(s), SquaresOf(s));
    var t, d := J.Square(J.Total(s)), J.Times(|s|, J.Squares(s));
    if Wrap(d) != 0 {
      SameRatio(Wrap(t) as nat, Wrap(d) as nat, t, d);
      Proportion(t, d);
    }
  }

  lemma SameRatio(a: nat, b: nat, t: nat, d: nat)
    requires b > 0 && d > 0
    ensures a as real / b as real == t as real / d as real <==> J.Times(a, d) == J.Times(t, b)
  {
    var x, y := a as real / b as real, t as real / d as real;
    assert x * b as real == a as real && y * d as real == t as real;
    assert a as real * d as real == (x * b as real) * d as real == x * (b as real * d as real);
    assert t as real * b as real == (y * d as real) * b as real == y * (b as real * d as real);
    assert b as real * d as real > 0.0;
    SameFactor(x, y, b as real * d as real);
    assert (a * d) as real == a as real * d as real && (t * b) as real == t as real * b as real;
  }

  lemma SameFactor(x: real, y: real, f: real)
    requires f > 0.0
    ensures x == y <==> x * f == y * f
  {
  }

  lemma Proportion(t: nat, d: nat)
    ensures J.Times(Wrap(t) as int, d) == J.Times(t, Wrap(d) as int) <==> CutInProportion(t, d)
  {
    var a, r, b, q := t / Modulus, Wrap(t) as nat, d / Modulus, Wrap(d) as nat;
    assert t == a * Modulus + r && d == b * Modulus + q;
    assert r * (b * Modulus + q) == (b * r) * Modulus + r * q;
    assert (a * Modulus + r) * q == (a * q) * Modulus + r * q;
  }

  /** Equal flows are seen to be equal whenever there is a number, wrapped or not. */
  lemma EqualFlowsPrintOne(s: seq<nat>)
    requires J.AllEqual(s) && J.Times(|s|, J.Squares(s)) % Modulus != 0
    ensures PrintedIndex(|s|, J.Total(s), SquaresOf(s)) == Number(1.0)
  {
    J.SumsCompare(s);
    PrintedIndexMeans(|s|, J.Total(s), SquaresOf(s));
    DividedBySelf(J.Times(|s|, J.Squares(s)));
  }

  lemma DividedBySelf(d: nat)
    requires d % Modulus != 0
    ensures Divide(Wrap(d), Wrap(d)) == Number(1.0)
  {
    Ones(Wrap(d) as real);
  }

  lemma Ones(x: real)
    requires x != 0.0
    ensures x / x == 1.0
  {
  }

  /** A group in which one flow got `x` bytes and the others nothing. */
  function Lone(n: nat, x: nat): (s: seq<nat>)
    requires n > 0
    ensures |s| == n
  {
    if n == 1 then [x] else Lone(n - 1, x) + [0]
  }

  lemma {:induction false} LoneSums(n: nat, x: nat)
    requires n > 0
    ensures J.Total(Lone(n, x)) == x && J.Squares(Lone(n, x)) == J.Square(x)
  {
    if n == 1 {
      assert [x][..0] == [];
    } else {
      LoneSums(n - 1, x);
      assert Lone(n, x)[..n - 1] == Lone(n - 1, x);
    }
  }

  /** A flow of 2^32 bytes beside idle ones, in a group of any size, leaves no index: both terms wrap to zero. */
  lemma LargeCountersWrap(n: nat)
    requires n > 0
    ensures PrintedIndex(n, J.Total(Lone(n, 0x1_0000_0000)), SquaresOf(Lone(n, 0x1_0000_0000))) == NotANumber
  {
    LoneSums(n, 0x1_0000_0000);
    NoNumberExactly(Lone(n, 0x1_0000_0000));
    MultipleOfModulus(n);
    assert J.Square(0x1_0000_0000) == Modulus;
  }

  /** Among twenty flows a single one of 2^31 bytes has an infinite index. */
  lemma LoneFlowIsInfinite()
    ensures PrintedIndex(20, J.Total(Lone(20, 0x8000_0000)), SquaresOf(Lone(20, 0x8000_0000))) == Infinite
  {
    LoneSums(20, 0x8000_0000);
    NoNumberExactly(Lone(20, 0x8000_0000));
    assert J.Square(0x8000_0000) == 0x4000_0000_0000_0000;
    assert J.Times(20, 0x4000_0000_0000_0000) == 5 * Modulus;
  }

  lemma MultipleOfModulus(n: nat)
    ensures J.Times(n, J.Square(0x1_0000_0000)) % Modulus == 0
  {
    assert J.Times(n, J.Square(0x1_0000_0000)) == n * Modulus;
    WholeModuliVanish(0, n);
  }

  function Equal(n: nat, x: nat): (s: seq<nat>)
    ensures |s| == n && forall i :: 0 <= i < n ==> s[i] == x
  {
    seq(n, _ => x)
  }

  lemma {:induction false} EqualSums(n: nat, x: nat)
    ensures J.Squares(Equal(n, x)) == J.Times(n, J.Square(x))
  {
    if n == 0 {
      Nothing(J.Square(x));
    } else {
      EqualSums(n - 1, x);
      assert Equal(n, x)[..n - 1] == Equal(n - 1, x);
      Distribute(n - 1, J.Square(x));
    }
  }

  /** Ten flows of 2^32 + 1 bytes wrap, and still print the right index. */
  lemma WrappedYetRight()
    ensures !NothingWraps(Equal(10, 0x1_0000_0001))
    ensures PrintedIndex(10, J.Total(Equal(10, 0x1_0000_0001)), SquaresOf(Equal(10, 0x1_0000_0001))) == Number(1.0)
  {
    EqualSums(10, 0x1_0000_0001);
    assert J.Times(10, J.Times(10, J.Square(0x1_0000_0001))) == 100 * (0x1_0000_0001 * 0x1_0000_0001);
    LastProductDecides(Equal(10, 0x1_0000_0001));
    EqualFlowsPrintOne(Equal(10, 0x1_0000_0001));
  }

  /******* The counters *******/

  /** One packet more. */
  function Receive(counters: seq<uint64>, index: nat, size: nat): seq<uint64>
    requires index < |counters|
  {
    counters[index := Wrap(counters[index] as nat + size)]
  }

  datatype Packet = Packet(index: nat, size: nat)

  function ReceiveAll(counters: seq<uint64>, packets: seq<Packet>): (after: seq<uint64>)
    requires forall p :: p in packets ==> p.index < |counters|
    ensures |after| == |counters|
  {
    if packets == [] then counters
    else
      var p := packets[|packets| - 1];
      Receive(ReceiveAll(counters, packets[..|packets| - 1]), p.index, p.size)
  }

  function BytesOf(packets: seq<Packet>, index: nat): nat {
    if packets == [] then 0
    else
      var p := packets[|packets| - 1];
      BytesOf(packets[..|packets| - 1], index) + if p.index == index then p.size else 0
  }

  /** From zero each counter counts the bytes of its own flow, up to 64 bits. */
  lemma {:induction false} CountersCount(counters: seq<uint64>, packets: seq<Packet>, index: nat)
    requires index < |counters| && counters[index] == 0
    requires forall p :: p in packets ==> p.index < |counters|
    ensures ReceiveAll(counters, packets)[index] == Wrap(BytesOf(packets, index))
  {
    if packets != [] {
      CountersCount(counters, packets[..|packets| - 1], index);
    }
  }

  lemma WrapAdds(a: nat, b: nat)
    ensures Wrap(Wrap(a) as nat + b) == Wrap(a + b)
    ensures Wrap(Wrap(a) as nat + Wrap(b) as nat) == Wrap(a + b)
  {
  }

  lemma {:induction false} ValuesSplit(s: seq<uint64>, k: nat)
    requires k < |s|
    ensures Values(s[..k + 1])[..k] == Values(s[..k])
    ensures J.Total(Values(s[..k + 1])) == J.Total(Values(s[..k])) + s[k] as nat
    ensures J.Squares(Values(s[..k + 1])) == J.Squares(Values(s[..k])) + J.Square(s[k] as nat)
  {
  }

  /** Sums cut down to 64 bits at every step are the exact sums cut down once. */
  lemma NextSums(s: seq<uint64>, k: nat)
    requires k < |s|
    ensures Wrap(Wrap(J.Total(Values(s[..k]))) as nat + s[k] as nat) == Wrap(J.Total(Values(s[..k + 1])))
    ensures J.Square(s[k] as int) >= 0
    ensures Wrap(Wrap(SquaresOf(Values(s[..k]))) as nat + Wrap(J.Square(s[k] as int)) as nat)
         == Wrap(SquaresOf(Values(s[..k + 1])))
  {
    ValuesSplit(s, k);
    J.SquareSign(s[k] as int);
    WrapAdds(J.Total(Values(s[..k])), s[k] as nat);
    WrapAdds(SquaresOf(Values(s[..k])), J.Square(s[k] as int));
  }

  /** The index printed for a group of flows. */
  function GroupIndex(counters: seq<uint64>): Ratio {
    var s := Values(counters);
    PrintedIndex(|s|, J.Total(s), SquaresOf(s))
  }

  /** The bits received by two groups of flows, in 64 bits. */
  function BitsOf(a: seq<uint64>, b: seq<uint64>): uint64 {
    Wrap(8 * (J.Total(Values(a)) + J.Total(Values(b))))
  }

  lemma {:induction false} TotalUpdate(s: seq<nat>, i: nat, v: nat)
    requires i < |s|
    ensures J.Total(s[i := v]) == J.Total(s) - s[i] + v
  {
    var init := s[..|s| - 1];
    if i < |s| - 1 {
      TotalUpdate(init, i, v);
      assert s[i := v][..|s| - 1] == init[i := v];
    } else {
      assert s[i := v][..|s| - 1] == init;
    }
  }

  /** The bytes of all packets. */
  function AllBytes(packets: seq<Packet>): nat {
    if packets == [] then 0 else AllBytes(packets[..|packets| - 1]) + packets[|packets| - 1].size
  }

  lemma ReceiveAddsUp(counters: seq<uint64>, index: nat, size: nat)
    requires index < |counters|
    ensures Wrap(J.Total(Values(Receive(counters, index, size)))) == Wrap(J.Total(Values(counters)) + size)
  {
    var old_, sum := counters[index] as nat, counters[index] as nat + size;
    var total := J.Total(Values(counters));
    assert Values(Receive(counters, index, size)) == Values(counters)[index := Wrap(sum) as nat];
    TotalUpdate(Values(counters), index, Wrap(sum) as nat);
    assert total + size == (total - old_ + Wrap(sum) as nat) + (sum / Modulus) * Modulus;
    TotalContains(Values(counters), index);
    WholeModuliVanish(total - old_ + Wrap(sum) as nat, sum / Modulus);
  }

  lemma {:induction false} TotalContains(s: seq<nat>, i: nat)
    requires i < |s|
    ensures s[i] <= J.Total(s)
  {
    if i < |s| - 1 {
      TotalContains(s[..|s| - 1], i);
    }
  }

  lemma {:induction false} ZeroTotal(counters: seq<uint64>)
    requires forall i :: 0 <= i < |counters| ==> counters[i] == 0
    ensures J.Total(Values(counters)) == 0
  {
    J.TotalSign(Values(counters));
  }

  /** From zero the counters of a group add up to the bytes of all its packets, up to 64 bits. */
  lemma {:induction false} TotalsCount(counters: seq<uint64>, packets: seq<Packet>)
    requires forall i :: 0 <= i < |counters| ==> counters[i] == 0
    requires forall p :: p in packets ==> p.index < |counters|
    ensures Wrap(J.Total(Values(ReceiveAll(counters, packets)))) == Wrap(AllBytes(packets))
  {
    if packets == [] {
      ZeroTotal(counters);
    } else {
      var init, p := packets[..|packets| - 1], packets[|packets| - 1];
      TotalsCount(counters, init);
      ReceiveAddsUp(ReceiveAll(counters, init), p.index, p.size);
      WrapAdds(J.Total(Values(ReceiveAll(counters, init))), p.size);
      WrapAdds(AllBytes(init), p.size);
    }
  }

  /** The aggregate of two groups is eight bits for every byte that either received, up to 64 bits. */
  lemma BitsCountBothGroups(a: seq<uint64>, b: seq<uint64>, p: nat, q: nat)
    requires Wrap(J.Total(Values(a))) == Wrap(p) && Wrap(J.Total(Values(b))) == Wrap(q)
    ensures BitsOf(a, b) == Wrap(8 * (p + q))
  {
    SameBits(J.Total(Values(a)), J.Total(Values(b)), p, q);
  }

  lemma SameBits(x: nat, y: nat, p: nat, q: nat)
    requires Wrap(x) == Wrap(p) && Wrap(y) == Wrap(q)
    ensures Wrap(8 * (x + y)) == Wrap(8 * (p + q))
  {
    WrapAdds(x, y);
    WrapAdds(p, q);
    assert Wrap(x + y) == Wrap(p + q);
    WrapTimesEight(x + y);
    WrapTimesEight(p + q);
  }

  lemma WrapTimesEight(x: nat)
    ensures Wrap(8 * Wrap(x) as nat) == Wrap(8 * x)
  {
    var k := x / Modulus;
    assert 8 * x == 8 * Wrap(x) as nat + (8 * k) * Modulus;
    WholeModuliVanish(8 * Wrap(x) as nat, 8 * k);
  }

  function PerSecond(bits: uint64, seconds: real): Ratio {
    if seconds == 0.0 then DivideByZero(bits) else Number(bits as real / seconds / 1000000.0)
  }

  /** The average throughput of a group in Mbps, as printed: bytes are divided among the flows in whole numbers. */
  function PrintedAverage(n: nat, total: nat, seconds: real): Ratio
    requires n > 0
  {
    PerSecond(Wrap(8 * (Wrap(total) as nat / n)), seconds)
  }

  function GroupAverage(counters: seq<uint64>, seconds: real): Ratio
    requires |counters| > 0
  {
    PrintedAverage(|counters|, J.Total(Values(counters)), seconds)
  }

  /** The average is cut by less than eight bits; it needs at least eight flows to be sure that nothing wraps. */
  lemma AverageIsClose(n: nat, total: nat, seconds: real)
    requires n >= 8 && total < Modulus && seconds > 0.0
    ensures PrintedAverage(n, total, seconds).Number?
    ensures var scale, printed := seconds * 1000000.0, PrintedAverage(n, total, seconds).value;
            printed * scale <= 8.0 * total as real / n as real < printed * scale + 8.0
  {
    var whole := total / n;
    SmallWraps(total);
    SmallWraps(8 * whole);
    WholePart(total, n);
    Rescale((8 * whole) as real, seconds);
  }

  lemma WholePart(total: nat, n: nat)
    requires n >= 8
    ensures (8 * (total / n)) as real <= 8.0 * total as real / n as real < (8 * (total / n)) as real + 8.0
    ensures 8 * (total / n) <= total
  {
    var w := total / n;
    EuclidBounds(total, n);
    AtLeastEight(w, n, total);
    EightTimes(total as real, n as real);
    assert (w * n) as real == w as real * n as real && ((w + 1) * n) as real == (w + 1) as real * n as real;
    Between(w as real, (w + 1) as real, total as real, n as real);
  }

  lemma EuclidBounds(total: nat, n: nat)
    requires n > 0
    ensures (total / n) * n <= total < (total / n + 1) * n
  {
    assert total == (total / n) * n + total % n;
    assert (total / n + 1) * n == (total / n) * n + n;
  }

  lemma AtLeastEight(w: nat, n: nat, total: nat)
    requires n >= 8 && w * n <= total
    ensures 8 * w <= total
  {
  }

  lemma EightTimes(x: real, n: real)
    requires n > 0.0
    ensures 8.0 * x / n == 8.0 * (x / n)
  {
  }

  lemma Between(w: real, v: real, x: real, n: real)
    requires n > 0.0 && w * n <= x < v * n
    ensures w <= x / n < v
  {
    var y := x / n;
    assert y * n == x;
  }

  lemma Rescale(bits: real, seconds: real)
    requires seconds > 0.0
    ensures (bits / seconds / 1000000.0) * (seconds * 1000000.0) == bits
  {
  }

  datatype GroupReport = GroupReport(average: Ratio, fairness: Ratio)

  datatype Report = Report(s1r1: GroupReport, s2r2: GroupReport, s3r1: GroupReport, throughT1: uint64, toR1: uint64)

  /** The report on a group of flows. */
  ghost predicate ReportsOn(report: GroupReport, counters: seq<uint64>, seconds: real)
    requires |counters| > 0
  {
    report.average == GroupAverage(counters, seconds) && report.fairness == GroupIndex(counters)
  }

  class Counters {
    const rxS1R1Bytes: array<uint64>
    const rxS2R2Bytes: array<uint64>
    const rxS3R1Bytes: array<uint64>

    ghost predicate Valid() {
      && rxS1R1Bytes.Length == 10 && rxS2R2Bytes.Length == 20 && rxS3R1Bytes.Length == 10
      && rxS1R1Bytes != rxS2R2Bytes && rxS1R1Bytes != rxS3R1Bytes && rxS2R2Bytes != rxS3R1Bytes
    }

    constructor ()
      ensures Valid() && fresh(rxS1R1Bytes) && fresh(rxS2R2Bytes) && fresh(rxS3R1Bytes)
    {
      rxS1R1Bytes := new uint64[10];
      rxS2R2Bytes := new uint64[20];
      rxS3R1Bytes := new uint64[10];
    }

    method TraceS1R1Sink(index: nat, size: nat)
      requires Valid() && index < 10
      modifies rxS1R1Bytes
      ensures rxS1R1Bytes[..] == Receive(old(rxS1R1Bytes[..]), index, size)
    {
      rxS1R1Bytes[index] := Wrap(rxS1R1Bytes[index] as nat + size);
    }

    method TraceS2R2Sink(index: nat, size: nat)
      requires Valid() && index < 20
      modifies rxS2R2Bytes
      ensures rxS2R2Bytes[..] == Receive(old(rxS2R2Bytes[..]), index, size)
    {
      rxS2R2Bytes[index] := Wrap(rxS2R2Bytes[index] as nat + size);
    }

    method TraceS3R1Sink(index: nat, size: nat)
      requires Valid() && index < 10
      modifies rxS3R1Bytes
      ensures rxS3R1Bytes[..] == Receive(old(rxS3R1Bytes[..]), index, size)
    {
      rxS3R1Bytes[index] := Wrap(rxS3R1Bytes[index] as nat + size);
    }

    method InitializeCounters()
      requires Valid()
      modifies rxS1R1Bytes, rxS2R2Bytes, rxS3R1Bytes
      ensures forall i :: 0 <= i < 10 ==> rxS1R1Bytes[i] == 0
      ensures forall i :: 0 <= i < 20 ==> rxS2R2Bytes[i] == 0
      ensures forall i :: 0 <= i < 10 ==> rxS3R1Bytes[i] == 0
    {
      for i := 0 to 10
        invariant forall k :: 0 <= k < i ==> rxS1R1Bytes[k] == 0
      {
        rxS1R1Bytes[i] := 0;
      }
      for i := 0 to 20
        invariant forall k :: 0 <= k < 10 ==> rxS1R1Bytes[k] == 0
        invariant forall k :: 0 <= k < i ==> rxS2R2Bytes[k] == 0
      {
        rxS2R2Bytes[i] := 0;
      }
      for i := 0 to 10
        invariant forall k :: 0 <= k < 10 ==> rxS1R1Bytes[k] == 0
        invariant forall k :: 0 <= k < 20 ==> rxS2R2Bytes[k] == 0
        invariant forall k :: 0 <= k < i ==> rxS3R1Bytes[k] == 0
      {
        rxS3R1Bytes[i] := 0;
      }
    }

    /** The average throughput and the fairness of the flows of one group. */
    method GroupFairness(counters: array<uint64>, seconds: real) returns (report: GroupReport)
      requires counters.Length > 0
      ensures ReportsOn(report, counters[..], seconds)
    {
      var sum, sumSquares: uint64 := 0, 0;
      for i := 0 to counters.Length
        invariant sum == Wrap(J.Total(Values(counters[..i])))
        invariant sumSquares == Wrap(SquaresOf(Values(counters[..i])))
      {
        var x := counters[i];
        assert counters[..][..i + 1] == counters[..i + 1] && counters[..][..i] == counters[..i];
        NextSums(counters[..], i);
        sum := Wrap(sum as nat + x as nat);
        sumSquares := Wrap(sumSquares as nat + Wrap(J.Square(x as int)) as nat);
      }
      assert counters[..counters.Length] == counters[..];
      J.SquareSign(sum as int);
      J.ProductSign(counters.Length, sumSquares as nat);
      var fairness := Divide(Wrap(J.Square(sum as int)), Wrap(J.Times(counters.Length, sumSquares as int)));
      report := GroupReport(Average(sum, counters.Length, seconds), fairness);
    }

    function Average(sum: uint64, n: nat, seconds: real): Ratio
      requires n > 0
    {
      PerSecond(Wrap(8 * (sum as nat / n)), seconds)
    }

    /** A sum that goes on from an earlier one. */
    method AddUp(start: uint64, counters: array<uint64>) returns (sum: uint64)
      ensures sum == Wrap(start as nat + J.Total(Values(counters[..])))
    {
      sum := start;
      for i := 0 to counters.Length
        invariant sum == Wrap(start as nat + J.Total(Values(counters[..i])))
      {
        assert counters[..][..i + 1] == counters[..i + 1] && counters[..][..i] == counters[..i];
        ValuesSplit(counters[..], i);
        WrapAdds(start as nat + J.Total(Values(counters[..i])), counters[i] as nat);
        sum := Wrap(sum as nat + counters[i] as nat);
      }
      assert counters[..counters.Length] == counters[..];
    }

    method Aggregate(a: array<uint64>, b: array<uint64>) returns (bits: uint64)
      ensures bits == BitsOf(a[..], b[..])
    {
      var sum := AddUp(0, a);
      sum := AddUp(sum, b);
      WrapAdds(J.Total(Values(a[..])), J.Total(Values(b[..])));
      WrapTimesEight(J.Total(Values(a[..])) + J.Total(Values(b[..])));
      bits := Wrap(8 * sum as nat);
    }

    /** The average and the fairness index of each group, and the bits received through T1 and by R1. */
    method PrintFairness(measurementWindow: real) returns (report: Report)
      requires Valid()
      ensures ReportsOn(report.s1r1, rxS1R1Bytes[..], measurementWindow)
      ensures ReportsOn(report.s2r2, rxS2R2Bytes[..], measurementWindow)
      ensures ReportsOn(report.s3r1, rxS3R1Bytes[..], measurementWindow)
      ensures report.throughT1 == BitsOf(rxS1R1Bytes[..], rxS2R2Bytes[..])
      ensures report.toR1 == BitsOf(rxS3R1Bytes[..], rxS1R1Bytes[..])
    {
      var s1r1 := GroupFairness(rxS1R1Bytes, measurementWindow);
      var s2r2 := GroupFairness(rxS2R2Bytes, measurementWindow);
      var s3r1 := GroupFairness(rxS3R1Bytes, measurementWindow);
      var throughT1 := Aggregate(rxS1R1Bytes, rxS2R2Bytes);
      var toR1 := Aggregate(rxS3R1Bytes, rxS1R1Bytes);
      report := Report(s1r1, s2r2, s3r1, throughT1, toR1);
    }
  }
}
