/**
 The timelines of the trace viewer: ranges and events kept in time order, binary searches over them,
 and the windows cut out of them for drawing.
 */
module Timeline {
  import F = Filters

  datatype DataRange = DataRange(start: real, end: real, value: string)

  datatype Event = Event(at: real, value: string)

  /** Python's `s[lo : hi]` for bounds that are not negative. */
  function Slice<T>(s: seq<T>, lo: nat, hi: nat): seq<T> {
    var h := if hi < |s| then hi else |s|;
    if lo <= h then s[lo..h] else []
  }

  /** Where a property holds exactly on one stretch of a sequence, filtering cuts that stretch out. */
  lemma {:induction false} FilterIsSlice<T(!new)>(s: seq<T>, f: T -> bool, lo: nat, hi: nat)
    requires lo <= hi <= |s|
    requires forall k :: 0 <= k < |s| ==> (f(s[k]) <==> lo <= k < hi)
    ensures F.Filter(s, f) == s[lo..hi]
  {
    if s != [] {
      var n := |s| - 1;
      var init := s[..n];
      var l, h := if lo < |s| then lo else n, if hi < |s| then hi else n;
      assert forall k :: 0 <= k < n ==> init[k] == s[k];
      FilterIsSlice(init, f, l, h);
      assert F.Filter(s, f) == init[l..h] + if f(s[n]) then [s[n]] else [];
      CutLast(s, lo, hi, l, h);
    }
  }

  lemma CutLast<T>(s: seq<T>, lo: nat, hi: nat, l: nat, h: nat)
    requires s != [] && lo <= hi <= |s| && l == (if lo < |s| then lo else |s| - 1) && h == (if hi < |s| then hi else |s| - 1)
    ensures s[lo..hi] == s[..|s| - 1][l..h] + if lo <= |s| - 1 < hi then [s[|s| - 1]] else []
  {
  }

  /******* Ranges *******/

  predicate Contains(r: DataRange, key: real) {
    r.start <= key <= r.end
  }

  /** The range has a point in common with the window. */
  predicate Meets(r: DataRange, start: real, end: real) {
    r.start <= end && start <= r.end
  }

  predicate StrictlyInside(r: DataRange, start: real, end: real) {
    start < r.start && r.end < end
  }

  /** No range begins or ends before an earlier one does. */
  ghost predicate Ordered(rs: seq<DataRange>) {
    forall i, j :: 0 <= i < j < |rs| ==> rs[i].start <= rs[j].start && rs[i].end <= rs[j].end
  }

  ghost predicate Disjoint(rs: seq<DataRange>) {
    && (forall i :: 0 <= i < |rs| ==> rs[i].start <= rs[i].end)
    && forall i, j :: 0 <= i < j < |rs| ==> rs[i].end < rs[j].start
  }

  /** Ranges in order, which may touch or overlap. */
  ghost predicate Sequential(rs: seq<DataRange>) {
    Ordered(rs) && forall i :: 0 <= i < |rs| ==> rs[i].start <= rs[i].end
  }

  lemma DisjointIsSequential(rs: seq<DataRange>)
    requires Disjoint(rs)
    ensures Sequential(rs)
  {
  }

  /******* Finding a range *******/

  /** The range that bisection finds between `l` and `u`, or -1. */
  function BisectRanges(rs: seq<DataRange>, key: real, l: int, u: int): (found: int)
    requires 0 <= l <= u + 1 <= |rs|
    ensures found == -1 || l <= found <= u
    ensures found >= 0 ==> Contains(rs[found], key)
    decreases u - l
  {
    if l > u then -1
    else
      var i := (l + u) / 2;
      if rs[i].start <= key <= rs[i].end then i
      else if key < rs[i].start then BisectRanges(rs, key, l, i - 1)
      else BisectRanges(rs, key, i + 1, u)
  }

  function Find(rs: seq<DataRange>, key: real): (found: int)
    ensures -1 <= found < |rs|
    ensures found >= 0 ==> Contains(rs[found], key)
  {
    BisectRanges(rs, key, 0, |rs| - 1)
  }

  lemma {:induction false} BisectMisses(rs: seq<DataRange>, key: real, l: int, u: int, k: int)
    requires Ordered(rs) && 0 <= l <= u + 1 <= |rs| && l <= k <= u && Contains(rs[k], key)
    ensures BisectRanges(rs, key, l, u) >= 0
    decreases u - l
  {
    var i := (l + u) / 2;
    if !Contains(rs[i], key) {
      if key < rs[i].start {
        BisectMisses(rs, key, l, i - 1, k);
      } else {
        BisectMisses(rs, key, i + 1, u, k);
      }
    }
  }

  /** In ordered ranges one is found if there is one. */
  lemma FindsOne(rs: seq<DataRange>, key: real, k: nat)
    requires Ordered(rs) && k < |rs| && Contains(rs[k], key)
    ensures Find(rs, key) >= 0
  {
    BisectMisses(rs, key, 0, |rs| - 1, k);
  }

  lemma {:induction false} BisectInOrder(rs: seq<DataRange>, start: real, end: real, l: int, u: int)
    requires Sequential(rs) && start <= end && 0 <= l <= u + 1 <= |rs|
    requires BisectRanges(rs, start, l, u) >= 0 && BisectRanges(rs, end, l, u) >= 0
    ensures BisectRanges(rs, start, l, u) <= BisectRanges(rs, end, l, u)
    decreases u - l
  {
    var i := (l + u) / 2;
    if end < rs[i].start {
      BisectInOrder(rs, start, end, l, i - 1);
    } else if start > rs[i].end {
      BisectInOrder(rs, start, end, i + 1, u);
    }
  }

  /** An earlier point is not found in a later range. */
  lemma FindsInOrder(rs: seq<DataRange>, start: real, end: real)
    requires Sequential(rs) && start <= end && Find(rs, start) >= 0 && Find(rs, end) >= 0
    ensures Find(rs, start) <= Find(rs, end)
  {
    BisectInOrder(rs, start, end, 0, |rs| - 1);
  }

  /** The range containing a point, by trying them all, from the last one on. */
  function Locate(rs: seq<DataRange>, key: real): (k: int)
    ensures -1 <= k < |rs|
    ensures k >= 0 ==> Contains(rs[k], key)
  {
    if rs == [] then -1
    else if Contains(rs[|rs| - 1], key) then |rs| - 1
    else Locate(rs[..|rs| - 1], key)
  }

  lemma {:induction false} LocatesOne(rs: seq<DataRange>, key: real, k: nat)
    requires k < |rs| && Contains(rs[k], key)
    ensures Locate(rs, key) >= 0
  {
    if !Contains(rs[|rs| - 1], key) {
      LocatesOne(rs[..|rs| - 1], key, k);
    }
  }

  /** In disjoint ranges bisection finds what trying them all finds, as only one can contain a point. */
  lemma FindIsLocate(rs: seq<DataRange>, key: real)
    requires Disjoint(rs)
    ensures Find(rs, key) == Locate(rs, key)
  {
    var i, j := Find(rs, key), Locate(rs, key);
    DisjointIsSequential(rs);
    if i >= 0 {
      LocatesOne(rs, key, i);
    }
    if j >= 0 {
      FindsOne(rs, key, j);
    }
    assert i >= 0 && j >= 0 ==> Contains(rs[i], key) && Contains(rs[j], key);
  }

  /******* Windows of ranges *******/

  /** The bounds of a window, from the places where its two ends were found. */
  function BoundsAt(n: nat, s: int, e: int): (nat, nat)
    requires -1 <= s && -1 <= e
  {
    if s == -1 && e == -1 then (0, 0) else if s == -1 then (0, e + 1) else if e == -1 then (s, n) else (s, e + 1)
  }

  function Bounds(rs: seq<DataRange>, start: real, end: real): (nat, nat) {
    BoundsAt(|rs|, Find(rs, start), Find(rs, end))
  }

  function Window(rs: seq<DataRange>, start: real, end: real): seq<DataRange> {
    var b := Bounds(rs, start, end);
    Slice(rs, b.0, b.1)
  }

  predicate InWindow(rs: seq<DataRange>, start: real, end: real, k: nat) {
    var b := Bounds(rs, start, end);
    b.0 <= k < b.1
  }

  /** Every range that meets the window is returned. */
  ghost predicate KeepsAll(rs: seq<DataRange>, start: real, end: real) {
    forall k :: 0 <= k < |rs| && Meets(rs[k], start, end) ==> InWindow(rs, start, end, k)
  }

  /** Both ends lie in ranges: nothing is in the window that does not meet it. */
  lemma WindowIsSound(rs: seq<DataRange>, start: real, end: real, k: nat)
    requires Sequential(rs) && start <= end
    requires Find(rs, start) >= 0 && Find(rs, end) >= 0
    requires k < |rs| && InWindow(rs, start, end, k)
    ensures Meets(rs[k], start, end)
  {
    var s, e := Find(rs, start), Find(rs, end);
    assert s < k ==> rs[s].end <= rs[k].end;
    assert k < e ==> rs[k].start <= rs[e].start;
  }

  /** A range that meets a window whose ends lie in no range is strictly inside. */
  lemma MeetsIsInside(rs: seq<DataRange>, start: real, end: real, k: nat)
    requires Ordered(rs) && Find(rs, start) == -1 && Find(rs, end) == -1
    requires k < |rs| && Meets(rs[k], start, end)
    ensures StrictlyInside(rs[k], start, end)
  {
    if Contains(rs[k], start) {
      FindsOne(rs, start, k);
    } else if Contains(rs[k], end) {
      FindsOne(rs, end, k);
    }
  }

  /**
   With both ends in no range, nothing lies strictly inside; otherwise the range before the one found
   for the start ends too early, and the range after the one found for the end starts too late.
   */
  ghost predicate LeavesNone(rs: seq<DataRange>, start: real, end: real) {
    var s, e := Find(rs, start), Find(rs, end);
    if s == -1 && e == -1 then forall k :: 0 <= k < |rs| ==> !StrictlyInside(rs[k], start, end)
    else (s > 0 ==> rs[s - 1].end < start) && (0 <= e < |rs| - 1 ==> end < rs[e + 1].start)
  }

  lemma LeavesNoneKeeps(rs: seq<DataRange>, start: real, end: real, k: nat)
    requires Sequential(rs) && start <= end && LeavesNone(rs, start, end)
    requires k < |rs| && Meets(rs[k], start, end)
    ensures InWindow(rs, start, end, k)
  {
    var s, e := Find(rs, start), Find(rs, end);
    if s == -1 && e == -1 {
      MeetsIsInside(rs, start, end, k);
    } else {
      assert forall i :: 0 <= i < s ==> rs[i].end <= rs[s - 1].end;
      assert forall i :: 0 <= e < i < |rs| ==> rs[e + 1].start <= rs[i].start;
    }
  }

  lemma KeptLeavesNone(rs: seq<DataRange>, start: real, end: real)
    requires Sequential(rs) && start <= end && KeepsAll(rs, start, end)
    ensures LeavesNone(rs, start, end)
  {
    var s, e := Find(rs, start), Find(rs, end);
    if s == -1 && e == -1 {
      forall k | 0 <= k < |rs| ensures !StrictlyInside(rs[k], start, end) {
        assert StrictlyInside(rs[k], start, end) ==> Meets(rs[k], start, end);
      }
    } else {
      assert s > 0 ==> rs[s - 1].start <= rs[s].start && !InWindow(rs, start, end, s - 1);
      assert s > 0 ==> !Meets(rs[s - 1], start, end);
      assert 0 <= e < |rs| - 1 ==> rs[e].end <= rs[e + 1].end && !InWindow(rs, start, end, e + 1);
      assert 0 <= e < |rs| - 1 ==> !Meets(rs[e + 1], start, end);
    }
  }

  /** In ordered ranges every range that meets the window is returned exactly if none is left beside it. */
  lemma OrderedWindowIsComplete(rs: seq<DataRange>, start: real, end: real)
    requires Sequential(rs) && start <= end
    ensures KeepsAll(rs, start, end) <==> LeavesNone(rs, start, end)
  {
    if LeavesNone(rs, start, end) {
      forall k | 0 <= k < |rs| && Meets(rs[k], start, end) ensures InWindow(rs, start, end, k) {
        LeavesNoneKeeps(rs, start, end, k);
      }
    } else if KeepsAll(rs, start, end) {
      KeptLeavesNone(rs, start, end);
    }
  }

  /** A range that contains neither end is kept, as soon as one end is found. */
  lemma InsideIsKept(rs: seq<DataRange>, start: real, end: real, k: nat)
    requires Sequential(rs) && start <= end
    requires Find(rs, start) >= 0 || Find(rs, end) >= 0
    requires k < |rs| && StrictlyInside(rs[k], start, end)
    ensures InWindow(rs, start, end, k)
  {
    var s, e := Find(rs, start), Find(rs, end);
    assert forall i :: 0 <= i < s ==> rs[i].start <= rs[s].start;
    assert forall i :: 0 <= e < i < |rs| ==> rs[e].end <= rs[i].end;
  }

  /** Among disjoint ranges one end in a range is enough for nothing to be lost. */
  lemma WindowKeeps(rs: seq<DataRange>, start: real, end: real)
    requires Disjoint(rs) && start <= end
    requires Find(rs, start) >= 0 || Find(rs, end) >= 0
    ensures LeavesNone(rs, start, end)
  {
    var s, e := Find(rs, start), Find(rs, end);
    assert s > 0 ==> rs[s - 1].end < rs[s].start;
    assert 0 <= e < |rs| - 1 ==> rs[e].end < rs[e + 1].start;
  }

  /**
   Among disjoint ranges every range that meets the window is returned, exactly unless both ends miss
   all ranges while some range lies strictly between them.
   */
  lemma WindowIsComplete(rs: seq<DataRange>, start: real, end: real)
    requires Disjoint(rs) && start <= end
    ensures KeepsAll(rs, start, end)
            <==> (Find(rs, start) >= 0 || Find(rs, end) >= 0
                  || forall k :: 0 <= k < |rs| ==> !StrictlyInside(rs[k], start, end))
  {
    DisjointIsSequential(rs);
    OrderedWindowIsComplete(rs, start, end);
    if Find(rs, start) >= 0 || Find(rs, end) >= 0 {
      WindowKeeps(rs, start, end);
    }
  }

  /** A single range inside a window is lost. */
  lemma RangeInsideIsLost(r: DataRange, start: real, end: real)
    requires r.start <= r.end && StrictlyInside(r, start, end)
    ensures Disjoint([r]) && start <= end && Meets(r, start, end) && Window([r], start, end) == []
  {
    assert BisectRanges([r], start, 0, -1) == -1 && BisectRanges([r], end, 1, 0) == -1;
  }

  /** A window that starts and ends where ranges touch may lose the outer ones. */
  lemma TouchingRangesAreLost(a: real, b: real, c: real, d: real)
    requires a < b < c < d
    ensures var rs := [DataRange(a, b, ""), DataRange(b, c, ""), DataRange(c, d, "")];
            Sequential(rs) && Window(rs, b, c) == [rs[1]] && Meets(rs[0], b, c) && Meets(rs[2], b, c)
  {
    var rs := [DataRange(a, b, ""), DataRange(b, c, ""), DataRange(c, d, "")];
    assert Find(rs, b) == 1 && Find(rs, c) == 1;
  }

  /** Each branch that found one end nowhere guesses that all ranges on that side belong to the window. */
  ghost predicate GuessIsRight(rs: seq<DataRange>, start: real, end: real) {
    var s, e := Find(rs, start), Find(rs, end);
    && (s == -1 && e >= 0 ==> start <= rs[0].end)
    && (s >= 0 && e == -1 ==> rs[|rs| - 1].start <= end)
  }

  lemma WindowIsStretch(rs: seq<DataRange>, start: real, end: real)
    requires Sequential(rs) && start <= end
    ensures var b := Bounds(rs, start, end); b.0 <= b.1 <= |rs| && Window(rs, start, end) == rs[b.0..b.1]
  {
    if Find(rs, start) >= 0 && Find(rs, end) >= 0 {
      FindsInOrder(rs, start, end);
    }
  }

  /** The ranges that meet a window are neighbours. */
  lemma {:induction false} MeetingStretch(rs: seq<DataRange>, start: real, end: real) returns (a: nat, b: nat)
    requires Ordered(rs)
    ensures a <= b <= |rs| && forall k :: 0 <= k < |rs| ==> (Meets(rs[k], start, end) <==> a <= k < b)
  {
    if rs == [] {
      a, b := 0, 0;
    } else {
      var n := |rs| - 1;
      var init := rs[..n];
      a, b := MeetingStretch(init, start, end);
      assert forall k :: 0 <= k < n ==> init[k] == rs[k];
      if Meets(rs[n], start, end) {
        if a == b {
          a := n;
        }
        assert forall k :: a < k < n ==> rs[a].end <= rs[k].end && rs[k].start <= rs[n].start;
        b := n + 1;
      }
    }
  }

  /** Nothing is returned that does not meet the window. */
  ghost predicate AddsNone(rs: seq<DataRange>, start: real, end: real) {
    forall k :: 0 <= k < |rs| && InWindow(rs, start, end, k) ==> Meets(rs[k], start, end)
  }

  lemma SameStretch(rs: seq<DataRange>, start: real, end: real, lo: nat, hi: nat, a: nat, b: nat)
    requires lo <= hi <= |rs| && a <= b <= |rs| && (lo, hi) == Bounds(rs, start, end)
    requires forall k :: 0 <= k < |rs| ==> (Meets(rs[k], start, end) <==> a <= k < b)
    ensures KeepsAll(rs, start, end) && AddsNone(rs, start, end) <==> (lo == a && hi == b) || (lo == hi && a == b)
  {
    if KeepsAll(rs, start, end) && AddsNone(rs, start, end) {
      assert lo < hi ==> InWindow(rs, start, end, lo) && InWindow(rs, start, end, hi - 1);
      assert lo < hi ==> Meets(rs[lo], start, end) && Meets(rs[hi - 1], start, end);
      assert a < b ==> Meets(rs[a], start, end) && Meets(rs[b - 1], start, end);
    }
  }

  lemma EqualStretches(rs: seq<DataRange>, start: real, end: real, lo: nat, hi: nat, a: nat, b: nat)
    requires lo <= hi <= |rs| && a <= b <= |rs|
    requires forall k :: 0 <= k < |rs| ==> (Meets(rs[k], start, end) <==> a <= k < b)
    ensures rs[lo..hi] == rs[a..b] <==> (lo == a && hi == b) || (lo == hi && a == b)
  {
    if rs[lo..hi] == rs[a..b] && lo < hi {
      assert rs[lo..hi][0] == rs[a..b][0] && rs[lo..hi][hi - lo - 1] == rs[a..b][b - a - 1];
      assert Meets(rs[lo], start, end) && Meets(rs[hi - 1], start, end);
    }
  }

  /** The list returned is that of the ranges that meet the window, exactly if this holds of each place in it. */
  lemma WindowByPlaces(rs: seq<DataRange>, start: real, end: real)
    requires Sequential(rs) && start <= end
    ensures Window(rs, start, end) == F.Filter(rs, r => Meets(r, start, end))
       <==> KeepsAll(rs, start, end) && AddsNone(rs, start, end)
  {
    var lo, hi := Bounds(rs, start, end).0, Bounds(rs, start, end).1;
    var a, b := MeetingStretch(rs, start, end);
    WindowIsStretch(rs, start, end);
    FilterIsSlice(rs, r => Meets(r, start, end), a, b);
    SameStretch(rs, start, end, lo, hi, a, b);
    EqualStretches(rs, start, end, lo, hi, a, b);
  }

  /** The ranges returned are exactly those that meet the window, in order, exactly if none is left out and the guess is right. */
  lemma WindowIsExact(rs: seq<DataRange>, start: real, end: real)
    requires Sequential(rs) && start <= end
    ensures Window(rs, start, end) == F.Filter(rs, r => Meets(r, start, end))
       <==> LeavesNone(rs, start, end) && GuessIsRight(rs, start, end)
  {
    WindowByPlaces(rs, start, end);
    OrderedWindowIsComplete(rs, start, end);
    GuessedRight(rs, start, end);
  }

  lemma GuessedRight(rs: seq<DataRange>, start: real, end: real)
    requires Sequential(rs) && start <= end
    ensures GuessIsRight(rs, start, end)
       <==> AddsNone(rs, start, end)
  {
    var s, e, n := Find(rs, start), Find(rs, end), |rs|;
    if s == -1 && e >= 0 {
      assert InWindow(rs, start, end, 0);
      assert forall k :: 0 < k <= e ==> rs[0].end <= rs[k].end;
      assert forall k :: 0 <= k < e ==> rs[k].start <= rs[e].start;
    } else if s >= 0 && e == -1 {
      assert InWindow(rs, start, end, n - 1);
      assert forall k :: s < k < n ==> rs[s].end <= rs[k].end;
      assert forall k :: s <= k < n - 1 ==> rs[k].start <= rs[n - 1].start;
    } else if s >= 0 && e >= 0 {
      forall k | 0 <= k < n && InWindow(rs, start, end, k) ensures Meets(rs[k], start, end) {
        WindowIsSound(rs, start, end, k);
      }
    }
  }

  class TimelineDataRange {
    var name: string
    var ranges: seq<DataRange>

    constructor (name: string)
      ensures this.name == name && ranges == []
    {
      this.name := name;
      ranges := [];
    }

    method AddRange(range: DataRange)
      modifies this`ranges
      ensures ranges == old(ranges) + [range]
    {
      ranges := ranges + [range];
    }

    /** A range containing the key; in ordered ranges one is found if there is one. */
    method Search(key: real) returns (found: int)
      ensures found == Find(ranges, key)
      ensures Ordered(ranges) && found == -1 ==> forall k :: 0 <= k < |ranges| ==> !Contains(ranges[k], key)
      ensures Disjoint(ranges) ==> found == Locate(ranges, key)
    {
      var l, u := 0, |ranges| - 1;
      while l <= u
        invariant 0 <= l <= u + 1 <= |ranges|
        invariant BisectRanges(ranges, key, l, u) == Find(ranges, key)
      {
        var i := (l + u) / 2;
        if key >= ranges[i].start && key <= ranges[i].end {
          SearchIsRight(ranges, key);
          return i;
        } else if key < ranges[i].start {
          u := i - 1;
        } else {
          l := i + 1;
        }
      }
      SearchIsRight(ranges, key);
      found := -1;
    }

    /** The ranges of a window. */
    method GetRanges(start: real, end: real) returns (window: seq<DataRange>)
      ensures window == Window(ranges, start, end)
    {
      var s := Search(start);
      var e := Search(end);
      if s == -1 && e == -1 {
        window := [];
      } else if s == -1 {
        window := Slice(ranges, 0, e + 1);
      } else if e == -1 {
        window := Slice(ranges, s, |ranges|);
      } else {
        window := Slice(ranges, s, e + 1);
      }
    }

    /** The bounds of the same window. */
    method GetRangesBounds(start: real, end: real) returns (lo: nat, hi: nat)
      ensures (lo, hi) == Bounds(ranges, start, end)
      ensures Slice(ranges, lo, hi) == Window(ranges, start, end)
      ensures hi <= |ranges|
    {
      var s := Search(start);
      var e := Search(end);
      if s == -1 && e == -1 {
        lo, hi := 0, 0;
      } else if s == -1 {
        lo, hi := 0, e + 1;
      } else if e == -1 {
        lo, hi := s, |ranges|;
      } else {
        lo, hi := s, e + 1;
      }
    }
  }

  lemma {:induction false} SearchIsRight(rs: seq<DataRange>, key: real)
    ensures Ordered(rs) && Find(rs, key) == -1 ==> forall k :: 0 <= k < |rs| ==> !Contains(rs[k], key)
    ensures Disjoint(rs) ==> Find(rs, key) == Locate(rs, key)
  {
    forall k | 0 <= k < |rs| && Ordered(rs) && Contains(rs[k], key) ensures Find(rs, key) >= 0 {
      FindsOne(rs, key, k);
    }
    if Disjoint(rs) {
      FindIsLocate(rs, key);
    }
  }

  /******* Events *******/

  predicate During(e: Event, start: real, end: real) {
    start <= e.at <= end
  }

  ghost predicate Increasing(es: seq<Event>) {
    forall i, j :: 0 <= i < j < |es| ==> es[i].at < es[j].at
  }

  ghost predicate InOrder(es: seq<Event>) {
    forall i, j :: 0 <= i < j < |es| ==> es[i].at <= es[j].at
  }

  /** How many events come before a point in time. */
  function CountBefore(es: seq<Event>, key: real): (k: nat)
    ensures k <= |es|
  {
    if es == [] then 0 else CountBefore(es[..|es| - 1], key) + if es[|es| - 1].at < key then 1 else 0
  }

  /** The place between what comes before and what does not. */
  lemma {:induction false} CountBeforeIs(es: seq<Event>, key: real, i: nat)
    requires i <= |es|
    requires forall k :: 0 <= k < i ==> es[k].at < key
    requires forall k :: i <= k < |es| ==> key <= es[k].at
    ensures CountBefore(es, key) == i
  {
    if es != [] {
      CountBeforeIs(es[..|es| - 1], key, if i < |es| then i else i - 1);
    }
  }

  lemma {:induction false} CountBeforeSplits(es: seq<Event>, key: real)
    requires InOrder(es)
    ensures forall k :: 0 <= k < |es| ==> (es[k].at < key <==> k < CountBefore(es, key))
  {
    if es != [] {
      var init := es[..|es| - 1];
      CountBeforeSplits(init, key);
      assert forall k :: 0 <= k < |init| ==> es[k] == init[k];
      if es[|es| - 1].at < key && CountBefore(init, key) < |init| {
        assert init[|init| - 1].at <= es[|es| - 1].at;
      }
    }
  }

  lemma {:induction false} CountBeforeGrows(es: seq<Event>, start: real, end: real)
    requires start <= end
    ensures CountBefore(es, start) <= CountBefore(es, end)
  {
    if es != [] {
      CountBeforeGrows(es[..|es| - 1], start, end);
    }
  }

  /** The place a search ends at: an event of that time, or the place to insert one. */
  ghost predicate IsPlace(es: seq<Event>, key: real, place: nat) {
    || (place < |es| && es[place].at == key)
    || (place <= |es| && (forall k :: 0 <= k < place ==> es[k].at < key)
        && forall k :: place <= k < |es| ==> key < es[k].at)
  }

  /** The place that bisection finds between `l` and `u`. */
  function Bisect(es: seq<Event>, key: real, l: int, u: int): (place: nat)
    requires 0 <= l <= u + 1 <= |es|
    ensures place <= |es|
    decreases u - l
  {
    if l > u then l
    else
      var i := (l + u) / 2;
      if key == es[i].at then i else if key < es[i].at then Bisect(es, key, l, i - 1) else Bisect(es, key, i + 1, u)
  }

  function Place(es: seq<Event>, key: real): (place: nat)
    ensures place <= |es|
  {
    Bisect(es, key, 0, |es| - 1)
  }

  lemma {:induction false} BisectFindsPlace(es: seq<Event>, key: real, l: int, u: int)
    requires InOrder(es) && 0 <= l <= u + 1 <= |es|
    requires forall k :: 0 <= k < l ==> es[k].at < key
    requires forall k :: u < k < |es| ==> key < es[k].at
    ensures IsPlace(es, key, Bisect(es, key, l, u))
    decreases u - l
  {
    if l <= u {
      var i := (l + u) / 2;
      if key < es[i].at {
        assert forall k :: i < k < |es| ==> es[i].at <= es[k].at;
        BisectFindsPlace(es, key, l, i - 1);
      } else if key > es[i].at {
        assert forall k :: 0 <= k < i ==> es[k].at <= es[i].at;
        BisectFindsPlace(es, key, i + 1, u);
      }
    }
  }

  /** Bisection ends at a place for the key; with distinct times that is the number of earlier events. */
  lemma PlaceIsRight(es: seq<Event>, key: real)
    requires InOrder(es)
    ensures IsPlace(es, key, Place(es, key))
    ensures Increasing(es) ==> Place(es, key) == CountBefore(es, key)
  {
    BisectFindsPlace(es, key, 0, |es| - 1);
    if Increasing(es) {
      PlaceIsCount(es, key, Place(es, key));
    }
  }

  /** With one event at a time at most, the place is the number of events before the key. */
  lemma PlaceIsCount(es: seq<Event>, key: real, place: nat)
    requires Increasing(es) && IsPlace(es, key, place)
    ensures place == CountBefore(es, key)
  {
    CountBeforeIs(es, key, place);
  }

  /** The first event after the window, which is returned as well unless an event falls on its end. */
  function Following(es: seq<Event>, end: real): seq<Event> {
    var e := CountBefore(es, end);
    if e < |es| && es[e].at != end then [es[e]] else []
  }

  function EventWindow(es: seq<Event>, start: real, end: real): seq<Event> {
    Slice(es, Place(es, start), Place(es, end) + 1)
  }

  /**
   The events returned are those of the window and the one following it, if no event falls on its end.
   A window turned round returns nothing but at most that following event.
   */
  lemma {:induction false} EventsOfWindow(es: seq<Event>, start: real, end: real)
    requires Increasing(es)
    ensures EventWindow(es, start, end)
         == F.Filter(es, e => During(e, start, end))
          + if CountBefore(es, start) <= CountBefore(es, end) then Following(es, end) else []
    ensures start <= end ==> CountBefore(es, start) <= CountBefore(es, end)
  {
    PlaceIsRight(es, start);
    PlaceIsRight(es, end);
    if start <= end {
      ForwardWindow(es, start, end);
    } else {
      BackwardWindow(es, start, end);
    }
  }

  lemma {:induction false} ForwardWindow(es: seq<Event>, start: real, end: real)
    requires Increasing(es) && start <= end
    ensures CountBefore(es, start) <= CountBefore(es, end)
    ensures Slice(es, CountBefore(es, start), CountBefore(es, end) + 1)
         == F.Filter(es, e => During(e, start, end)) + Following(es, end)
  {
    CountBeforeGrows(es, start, end);
    EventsDuring(es, start, end);
    WithFollowing(es, CountBefore(es, start), end);
  }

  lemma BackwardWindow(es: seq<Event>, start: real, end: real)
    requires Increasing(es) && end < start
    ensures F.Filter(es, e => During(e, start, end)) == []
    ensures Slice(es, CountBefore(es, start), CountBefore(es, end) + 1)
         == if CountBefore(es, start) <= CountBefore(es, end) then Following(es, end) else []
  {
    CountBeforeGrows(es, end, start);
    F.FilterNone(es, e => During(e, start, end));
    if CountBefore(es, start) == CountBefore(es, end) {
      NothingBetween(es, end, start);
    }
  }

  lemma WithFollowing(es: seq<Event>, s: nat, end: real)
    requires s <= CountBefore(es, end)
    ensures Slice(es, s, CountBefore(es, end) + 1) == es[s..EndOfWindow(es, end)] + Following(es, end)
  {
    var e := CountBefore(es, end);
    if e < |es| && es[e].at != end {
      OneMore(es, s, e);
    }
  }

  lemma OneMore<T>(s: seq<T>, lo: nat, hi: nat)
    requires lo <= hi < |s|
    ensures s[lo..hi + 1] == s[lo..hi] + [s[hi]]
  {
  }

  lemma NothingBetween(es: seq<Event>, start: real, end: real)
    requires Increasing(es) && start < end && CountBefore(es, start) == CountBefore(es, end)
    ensures Slice(es, CountBefore(es, end), CountBefore(es, start) + 1) == Following(es, start)
  {
    CountBeforeSplits(es, start);
    CountBeforeSplits(es, end);
  }

  /** The number of events up to and including the end of a window. */
  function EndOfWindow(es: seq<Event>, end: real): (h: nat)
    ensures CountBefore(es, end) <= h <= |es|
  {
    var e := CountBefore(es, end);
    if e < |es| && es[e].at == end then e + 1 else e
  }

  lemma {:induction false} EventsDuring(es: seq<Event>, start: real, end: real)
    requires Increasing(es) && start <= end
    requires CountBefore(es, start) <= CountBefore(es, end)
    ensures F.Filter(es, e => During(e, start, end)) == es[CountBefore(es, start)..EndOfWindow(es, end)]
  {
    var s, e, h := CountBefore(es, start), CountBefore(es, end), EndOfWindow(es, end);
    forall k | 0 <= k < |es| ensures During(es[k], start, end) <==> s <= k < h {
      CountBeforeSplits(es, start);
      CountBeforeSplits(es, end);
      assert e < k ==> es[e].at < es[k].at;
    }
    FilterIsSlice(es, e => During(e, start, end), s, h);
  }

  /** No event of the window is missing from what is returned. */
  ghost predicate NothingLost(es: seq<Event>, start: real, end: real) {
    forall k :: 0 <= k < |es| && During(es[k], start, end) ==> Place(es, start) <= k <= Place(es, end)
  }

  /** Strictly between the ends nothing is lost, even if several events happen at one time. */
  lemma InsideIsReturned(es: seq<Event>, start: real, end: real, k: nat)
    requires InOrder(es) && k < |es| && start < es[k].at < end
    ensures Place(es, start) <= k <= Place(es, end)
    ensures es[k] in EventWindow(es, start, end)
  {
    PlaceIsRight(es, start);
    PlaceIsRight(es, end);
    assert EventWindow(es, start, end)[k - Place(es, start)] == es[k];
  }

  /** Nothing is lost exactly if the event before those returned is too early, and the one after them too late. */
  lemma LosesNothing(es: seq<Event>, start: real, end: real)
    requires InOrder(es) && start <= end
    ensures NothingLost(es, start, end)
       <==> (Place(es, start) > 0 ==> es[Place(es, start) - 1].at < start)
            && (Place(es, end) + 1 < |es| ==> end < es[Place(es, end) + 1].at)
  {
    PlaceIsRight(es, start);
    PlaceIsRight(es, end);
    var s, e := Place(es, start), Place(es, end);
    assert s > 0 && NothingLost(es, start, end) ==> !During(es[s - 1], start, end);
    assert e + 1 < |es| && NothingLost(es, start, end) ==> !During(es[e + 1], start, end);
  }

  /** The events of the window come first in what is returned. */
  ghost predicate ReturnsAll(es: seq<Event>, start: real, end: real) {
    F.Filter(es, e => During(e, start, end)) <= EventWindow(es, start, end)
  }

  lemma TwoDuring(es: seq<Event>, start: real, end: real, i: nat, j: nat)
    requires i < j < |es| && During(es[i], start, end) && During(es[j], start, end)
    ensures |F.Filter(es, e => During(e, start, end))| >= 2
  {
    var f := (e: Event) => During(e, start, end);
    assert es == es[..j] + es[j..];
    F.FilterConcat(es[..j], es[j..], f);
    F.FilterMembers(es[..j], f);
    F.FilterMembers(es[j..], f);
    assert es[i] in es[..j] && es[j] in es[j..];
  }

  /** Of several events at one time a window of just that time returns one. */
  lemma SimultaneousEventsAreMissed(es: seq<Event>, i: nat, j: nat)
    requires i < j < |es| && es[i].at == es[j].at
    ensures !ReturnsAll(es, es[i].at, es[i].at) && !NothingLost(es, es[i].at, es[i].at)
  {
    var t := es[i].at;
    TwoDuring(es, t, t, i, j);
    assert During(es[i], t, t) && During(es[j], t, t);
  }

  /** Every window returns all its events exactly if no two events happen at the same time. */
  lemma WindowsReturnAll(es: seq<Event>)
    requires InOrder(es)
    ensures (forall start, end :: start <= end ==> ReturnsAll(es, start, end)) <==> Increasing(es)
  {
    if Increasing(es) {
      forall start, end | start <= end ensures ReturnsAll(es, start, end) {
        EventsOfWindow(es, start, end);
      }
    } else {
      var i, j :| 0 <= i < j < |es| && es[i].at >= es[j].at;
      SimultaneousEventsAreMissed(es, i, j);
    }
  }

  class TimelineEvent {
    var name: string
    var events: seq<Event>

    constructor (name: string)
      ensures this.name == name && events == []
    {
      this.name := name;
      events := [];
    }

    method AddEvent(event: Event)
      modifies this`events
      ensures events == old(events) + [event]
    {
      events := events + [event];
    }

    method Search(key: real) returns (place: nat)
      ensures place == Place(events, key)
      ensures InOrder(events) ==> IsPlace(events, key, place)
      ensures Increasing(events) ==> place == CountBefore(events, key)
    {
      if InOrder(events) {
        PlaceIsRight(events, key);
      }
      var l, u := 0, |events| - 1;
      while l <= u
        invariant 0 <= l <= u + 1 <= |events|
        invariant Bisect(events, key, l, u) == Place(events, key)
      {
        var i := (l + u) / 2;
        if key == events[i].at {
          return i;
        } else if key < events[i].at {
          u := i - 1;
        } else {
          l := i + 1;
        }
      }
      place := l;
    }

    method GetEvents(start: real, end: real) returns (window: seq<Event>)
      ensures window == EventWindow(events, start, end)
    {
      var s := Search(start);
      var e := Search(end);
      window := Slice(events, s, e + 1);
    }

    method GetEventsBounds(start: real, end: real) returns (lo: nat, hi: nat)
      ensures lo == Place(events, start) && hi == Place(events, end) + 1
      ensures Slice(events, lo, hi) == EventWindow(events, start, end)
    {
      var s := Search(start);
      var e := Search(end);
      lo, hi := s, e + 1;
    }
  }
}
