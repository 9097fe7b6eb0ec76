/**
 The order in which shared libraries are loaded: libraries are loaded in steps, each step taking
 every pending library all of whose dependencies were loaded before it.
 */
module LoadOrder {

  type Library = string

  /** The libraries each library links to.  A dependency need not be a key. */
  type Dependencies = map<Library, seq<Library>>

  /******* Dependency chains *******/

  /** Each library of `c` depends on the next one. */
  predicate IsChain(deps: Dependencies, c: seq<Library>) {
    c != [] && forall i :: 0 <= i < |c| - 1 ==> c[i] in deps && c[i + 1] in deps[c[i]]
  }

  /** Some chain of `n` dependencies starts at `m`. */
  ghost predicate HasChain(deps: Dependencies, m: Library, n: nat) {
    exists c :: IsChain(deps, c) && c[0] == m && |c| == n + 1
  }

  /** The longest chain of dependencies below `m` has length `n`. */
  ghost predicate LongestChain(deps: Dependencies, m: Library, n: nat) {
    HasChain(deps, m, n) && !HasChain(deps, m, n + 1)
  }

  ghost predicate Acyclic(deps: Dependencies) {
    forall c :: IsChain(deps, c) && |c| > 1 ==> c[0] != c[|c| - 1]
  }

  /** Every dependency is itself a library to load. */
  predicate NoneMissing(deps: Dependencies) {
    forall m, d :: m in deps && d in deps[m] ==> d in deps
  }

  lemma ChainTail(deps: Dependencies, c: seq<Library>)
    requires IsChain(deps, c) && |c| > 1
    ensures IsChain(deps, c[1..])
  {
  }

  lemma ChainCons(deps: Dependencies, m: Library, c: seq<Library>)
    requires IsChain(deps, c) && m in deps && c[0] in deps[m]
    ensures IsChain(deps, [m] + c)
  {
  }

  /** A longer chain from `m` is one from a dependency of it. */
  lemma ChainStep(deps: Dependencies, m: Library, n: nat)
    ensures HasChain(deps, m, n + 1) <==> m in deps && exists d :: d in deps[m] && HasChain(deps, d, n)
  {
    if HasChain(deps, m, n + 1) {
      var c :| IsChain(deps, c) && c[0] == m && |c| == n + 2;
      ChainTail(deps, c);
      assert c[1..][0] in deps[m] && HasChain(deps, c[1..][0], n);
    }
    if m in deps && exists d :: d in deps[m] && HasChain(deps, d, n) {
      var d :| d in deps[m] && HasChain(deps, d, n);
      var c :| IsChain(deps, c) && c[0] == d && |c| == n + 1;
      ChainCons(deps, m, c);
      assert ([m] + c)[0] == m;
    }
  }

  lemma NoStep(deps: Dependencies, m: Library)
    ensures HasChain(deps, m, 0)
  {
    assert IsChain(deps, [m]);
  }

  /******* What the steps load *******/

  /** Loaded within the first `k` steps: some step comes after all its dependencies. */
  predicate LoadedBy(deps: Dependencies, m: Library, k: nat)
    decreases k
  {
    k > 0 && m in deps && forall d :: d in deps[m] ==> LoadedBy(deps, d, k - 1)
  }

  lemma {:induction false} StaysLoaded(deps: Dependencies, m: Library, k: nat, l: nat)
    requires LoadedBy(deps, m, k) && k <= l
    ensures LoadedBy(deps, m, l)
    decreases k
  {
    forall d | d in deps[m] ensures LoadedBy(deps, d, l - 1) {
      StaysLoaded(deps, d, k - 1, l - 1);
    }
  }

  /** Every chain from `m` ends at a library that is there. */
  ghost predicate NothingMissingBelow(deps: Dependencies, m: Library) {
    forall c :: IsChain(deps, c) && c[0] == m ==> c[|c| - 1] in deps
  }

  lemma MissingStep(deps: Dependencies, m: Library)
    ensures NothingMissingBelow(deps, m) <==> m in deps && forall d :: d in deps[m] ==> NothingMissingBelow(deps, d)
  {
    assert IsChain(deps, [m]);
    if NothingMissingBelow(deps, m) {
      assert [m][0] == m;
      forall d, c | d in deps[m] && IsChain(deps, c) && c[0] == d ensures c[|c| - 1] in deps {
        ChainCons(deps, m, c);
        assert ([m] + c)[|c|] == c[|c| - 1] && ([m] + c)[0] == m;
      }
    }
    if m in deps && forall d :: d in deps[m] ==> NothingMissingBelow(deps, d) {
      forall c | IsChain(deps, c) && c[0] == m ensures c[|c| - 1] in deps {
        if |c| > 1 {
          ChainTail(deps, c);
          assert c[1..][0] in deps[m] && c[1..][|c| - 2] == c[|c| - 1];
        }
      }
    }
  }

  /** A library is loaded within `k` steps exactly if nothing below it is missing and no chain below it has length `k`. */
  lemma {:induction false} LoadedMeansShortChains(deps: Dependencies, m: Library, k: nat)
    ensures LoadedBy(deps, m, k) <==> NothingMissingBelow(deps, m) && !HasChain(deps, m, k)
    decreases k
  {
    if k == 0 {
      NoStep(deps, m);
    } else {
      ChainStep(deps, m, k - 1);
      MissingStep(deps, m);
      if m in deps {
        forall d | d in deps[m]
          ensures LoadedBy(deps, d, k - 1) <==> NothingMissingBelow(deps, d) && !HasChain(deps, d, k - 1)
        {
          LoadedMeansShortChains(deps, d, k - 1);
        }
      }
    }
  }

  /** Step `k` loads the libraries whose longest chain has length `k`, as long as nothing below them is missing. */
  lemma LoadedAtStep(deps: Dependencies, m: Library, k: nat)
    ensures LoadedBy(deps, m, k + 1) && !LoadedBy(deps, m, k)
       <==> NothingMissingBelow(deps, m) && LongestChain(deps, m, k)
  {
    LoadedMeansShortChains(deps, m, k);
    LoadedMeansShortChains(deps, m, k + 1);
  }

  /******* When everything can be loaded *******/

  predicate AllLoadedBy(deps: Dependencies, k: nat) {
    forall m :: m in deps ==> LoadedBy(deps, m, k)
  }

  /** Where nothing is missing, a chain stays among the libraries. */
  lemma ChainStaysInside(deps: Dependencies, c: seq<Library>)
    requires NoneMissing(deps) && IsChain(deps, c) && c[0] in deps
    ensures forall i :: 0 <= i < |c| ==> c[i] in deps
  {
    forall i | 0 <= i < |c| ensures c[i] in deps {
      if i > 0 {
        assert c[i - 1] in deps && c[i - 1 + 1] in deps[c[i - 1]];
      }
    }
  }

  /** Without a cycle no library occurs twice in a chain. */
  lemma ChainIsInjective(deps: Dependencies, c: seq<Library>, i: nat, j: nat)
    requires Acyclic(deps) && IsChain(deps, c) && i < j < |c|
    ensures c[i] != c[j]
  {
    var part := c[i..j + 1];
    assert forall k :: 0 <= k < |part| ==> part[k] == c[i + k];
    assert IsChain(deps, part);
    assert part[0] != part[|part| - 1];
  }

  /** A sequence without repetitions is no longer than the set its elements come from. */
  lemma {:induction false} Pigeonhole(c: seq<Library>, s: set<Library>)
    requires forall i :: 0 <= i < |c| ==> c[i] in s
    requires forall i, j :: 0 <= i < j < |c| ==> c[i] != c[j]
    ensures |c| <= |s|
    decreases |c|
  {
    if c != [] {
      Pigeonhole(c[1..], s - {c[0]});
    }
  }

  /** Without cycles and missing libraries everything is loaded within as many steps as there are libraries. */
  lemma AcyclicLoads(deps: Dependencies)
    requires NoneMissing(deps) && Acyclic(deps)
    ensures AllLoadedBy(deps, |deps|)
  {
    forall m | m in deps ensures LoadedBy(deps, m, |deps|) {
      forall c | IsChain(deps, c) && c[0] == m ensures c[|c| - 1] in deps {
        ChainStaysInside(deps, c);
      }
      LoadedMeansShortChains(deps, m, |deps|);
      if HasChain(deps, m, |deps|) {
        var c :| IsChain(deps, c) && c[0] == m && |c| == |deps| + 1;
        ChainStaysInside(deps, c);
        forall i, j | 0 <= i < j < |c| ensures c[i] != c[j] {
          ChainIsInjective(deps, c, i, j);
        }
        Pigeonhole(c, deps.Keys);
      }
    }
  }

  /** A library on a cycle is never loaded. */
  lemma {:induction false} CycleNeverLoads(deps: Dependencies, c: seq<Library>, i: nat, k: nat)
    requires IsChain(deps, c) && |c| > 1 && c[0] == c[|c| - 1] && i < |c| - 1
    ensures !LoadedBy(deps, c[i], k)
    decreases k
  {
    if k > 0 {
      assert c[i + 1] in deps[c[i]];
      if i + 1 < |c| - 1 {
        CycleNeverLoads(deps, c, i + 1, k - 1);
      } else {
        CycleNeverLoads(deps, c, 0, k - 1);
      }
    }
  }

  /** Everything is loaded in the end exactly if there is neither a missing library nor a cycle. */
  lemma LoadsIffWellFounded(deps: Dependencies)
    ensures (exists k: nat :: AllLoadedBy(deps, k)) <==> NoneMissing(deps) && Acyclic(deps)
  {
    if k: nat :| AllLoadedBy(deps, k) {
      forall m, d | m in deps && d in deps[m] ensures d in deps {
        assert LoadedBy(deps, m, k);
      }
      forall c | IsChain(deps, c) && |c| > 1 ensures c[0] != c[|c| - 1] {
        if c[0] == c[|c| - 1] {
          CycleNeverLoads(deps, c, 0, k);
        }
      }
    }
    if NoneMissing(deps) && Acyclic(deps) {
      AcyclicLoads(deps);
    }
  }
}
