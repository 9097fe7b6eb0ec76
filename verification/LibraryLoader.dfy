/** The loader's own lists, changed in place step by step. */
module LibraryLoader {
  import opened Filters
  import opened LoadOrder

  datatype Result<+T> = Ok(value: T) | RecursionError

  /** All dependencies of a library are in `current`. */
  function CanLoad(deps: Dependencies, current: seq<Library>): Library -> bool {
    (m: Library) => m in deps && forall d :: d in deps[m] ==> d in current
  }

  function PendingAt(deps: Dependencies, k: nat): Library -> bool {
    (m: Library) => !LoadedBy(deps, m, k)
  }

  function LoadsAt(deps: Dependencies, k: nat): Library -> bool {
    (m: Library) => LoadedBy(deps, m, k + 1) && !LoadedBy(deps, m, k)
  }

  function NotIn(s: seq<Library>): Library -> bool {
    (m: Library) => m !in s
  }

  /** The first `k` steps: step `j` holds what is loaded then, in the order of the keys. */
  function Layers(deps: Dependencies, keys: seq<Library>, k: nat): (r: seq<seq<Library>>)
    ensures |r| == k && forall j :: 0 <= j < k ==> r[j] == Filter(keys, LoadsAt(deps, j))
  {
    if k == 0 then [] else Layers(deps, keys, k - 1) + [Filter(keys, LoadsAt(deps, k - 1))]
  }

  function Flatten(ss: seq<seq<Library>>): seq<Library> {
    if ss == [] then [] else Flatten(ss[..|ss| - 1]) + ss[|ss| - 1]
  }

  /** Everything in `current` comes with its dependencies. */
  ghost predicate DependencyClosed(deps: Dependencies, current: seq<Library>) {
    forall m, d :: m in current && m in deps && d in deps[m] ==> d in current
  }

  /** `keys` lists the libraries, in the order they were entered. */
  ghost predicate Lists(keys: seq<Library>, deps: Dependencies) {
    Distinct(keys) && forall m :: m in keys <==> m in deps
  }

  function Other(x: Library): Library -> bool {
    (y: Library) => y != x
  }

  /******* What one step does, as values *******/

  ghost predicate Holds(current: seq<Library>, deps: Dependencies, k: nat) {
    forall m :: m in current <==> LoadedBy(deps, m, k)
  }

  lemma CanLoadNext(deps: Dependencies, current: seq<Library>, k: nat, m: Library)
    requires Holds(current, deps, k)
    ensures CanLoad(deps, current)(m) <==> LoadedBy(deps, m, k + 1)
  {
  }

  lemma NextStep(deps: Dependencies, keys: seq<Library>, current: seq<Library>, k: nat)
    requires Holds(current, deps, k)
    ensures Filter(Filter(keys, PendingAt(deps, k)), CanLoad(deps, current)) == Filter(keys, LoadsAt(deps, k))
  {
    forall m | m in keys ensures LoadsAt(deps, k)(m) == (PendingAt(deps, k)(m) && CanLoad(deps, current)(m)) {
      CanLoadNext(deps, current, k, m);
    }
    FilterFilter(keys, PendingAt(deps, k), CanLoad(deps, current), LoadsAt(deps, k));
  }

  lemma LeftPending(deps: Dependencies, keys: seq<Library>, k: nat)
    requires Lists(keys, deps)
    ensures Filter(Filter(keys, PendingAt(deps, k)), NotIn(Filter(keys, LoadsAt(deps, k))))
         == Filter(keys, PendingAt(deps, k + 1))
  {
    var modules := Filter(keys, LoadsAt(deps, k));
    FilterMembers(keys, LoadsAt(deps, k));
    forall m | m in keys ensures PendingAt(deps, k + 1)(m) == (PendingAt(deps, k)(m) && NotIn(modules)(m)) {
      if LoadedBy(deps, m, k) {
        StaysLoaded(deps, m, k, k + 1);
      }
    }
    FilterFilter(keys, PendingAt(deps, k), NotIn(modules), PendingAt(deps, k + 1));
  }

  lemma NowLoaded(deps: Dependencies, keys: seq<Library>, current: seq<Library>, k: nat)
    requires Lists(keys, deps) && Holds(current, deps, k)
    ensures Holds(current + Filter(keys, LoadsAt(deps, k)), deps, k + 1)
  {
    FilterMembers(keys, LoadsAt(deps, k));
    forall m ensures m in current + Filter(keys, LoadsAt(deps, k)) <==> LoadedBy(deps, m, k + 1) {
      if LoadedBy(deps, m, k) {
        StaysLoaded(deps, m, k, k + 1);
      }
    }
  }

  lemma NothingPending(deps: Dependencies, keys: seq<Library>, k: nat)
    requires Lists(keys, deps)
    ensures |Filter(keys, PendingAt(deps, k))| == 0 <==> AllLoadedBy(deps, k)
  {
    FilterMembers(keys, PendingAt(deps, k));
    var pending := Filter(keys, PendingAt(deps, k));
    assert |pending| > 0 ==> pending[0] in pending;
    forall m | m in deps ensures LoadedBy(deps, m, k) || m in pending {
      assert PendingAt(deps, k)(m) == !LoadedBy(deps, m, k);
    }
  }

  /** The steps with `modules` added to the last one. */
  function Extended(ss: seq<seq<Library>>, modules: seq<Library>): seq<seq<Library>>
    requires ss != []
  {
    ss[|ss| - 1 := ss[|ss| - 1] + modules]
  }

  lemma ExtendedMore(ss: seq<seq<Library>>, modules: seq<Library>, m: Library)
    requires ss != []
    ensures Extended(Extended(ss, modules), [m]) == Extended(ss, modules + [m])
    ensures Extended(ss, []) == ss
  {
    assert ss[|ss| - 1] + modules + [m] == ss[|ss| - 1] + (modules + [m]);
    assert ss[|ss| - 1] + [] == ss[|ss| - 1];
  }

  lemma ExtendedNew(ss: seq<seq<Library>>, modules: seq<Library>)
    ensures Extended(ss + [[]], modules) == ss + [modules]
  {
    assert [] + modules == modules;
  }

  lemma FlattenAppend(ss: seq<seq<Library>>, s: seq<Library>)
    ensures Flatten(ss + [s]) == Flatten(ss) + s
  {
  }

  /** Taking one more module out of the pending ones. */
  lemma OneMoreRemoved(pending: seq<Library>, modules: seq<Library>, i: nat)
    requires Distinct(pending) && i < |modules|
    ensures Remove(Filter(pending, NotIn(modules[..i])), modules[i]) == Filter(pending, NotIn(modules[..i + 1]))
  {
    FilterDistinct(pending, NotIn(modules[..i]));
    RemoveIsFilter(Filter(pending, NotIn(modules[..i])), modules[i], Other(modules[i]));
    assert modules[..i + 1] == modules[..i] + [modules[i]];
    FilterFilter(pending, NotIn(modules[..i]), Other(modules[i]), NotIn(modules[..i + 1]));
  }

  lemma OneMoreMoved(pending: seq<Library>, steps: seq<seq<Library>>, modules: seq<Library>, i: nat)
    requires Distinct(pending) && steps != [] && i < |modules|
    ensures modules[..i + 1] == modules[..i] + [modules[i]]
    ensures Remove(Filter(pending, NotIn(modules[..i])), modules[i]) == Filter(pending, NotIn(modules[..i + 1]))
    ensures Extended(Extended(steps, modules[..i]), [modules[i]]) == Extended(steps, modules[..i + 1])
  {
    OneMoreRemoved(pending, modules, i);
    ExtendedMore(steps, modules[..i], modules[i]);
    assert modules[..i + 1] == modules[..i] + [modules[i]];
  }

  /** Whatever part of a step has been carried out, what is loaded is closed under dependencies. */
  lemma StaysClosed(deps: Dependencies, current: seq<Library>, modules: seq<Library>, i: nat)
    requires DependencyClosed(deps, current) && i <= |modules|
    requires forall m :: m in modules ==> CanLoad(deps, current)(m)
    ensures DependencyClosed(deps, current + modules[..i])
  {
    var now := current + modules[..i];
    forall m, d | m in now && m in deps && d in deps[m] ensures d in now {
      assert m in modules ==> CanLoad(deps, current)(m);
    }
  }

  class LoadSorter {
    const deps: Dependencies
    const keys: seq<Library>
    var pendingModules: seq<Library>
    var currentModules: seq<Library>
    var steps: seq<seq<Library>>

    /** Between two steps. */
    ghost predicate At(k: nat)
      reads this
    {
      && Lists(keys, deps)
      && pendingModules == Filter(keys, PendingAt(deps, k))
      && Holds(currentModules, deps, k) && DependencyClosed(deps, currentModules)
      && steps == Layers(deps, keys, k) && currentModules == Flatten(steps)
    }

    constructor (deps: Dependencies, keys: seq<Library>)
      requires Lists(keys, deps)
      ensures this.deps == deps && this.keys == keys && At(0)
    {
      this.deps, this.keys := deps, keys;
      pendingModules, currentModules, steps := keys, [], [];
      new;
      FilterAll(keys, PendingAt(deps, 0));
    }

    /** The pending libraries whose dependencies are all loaded, in pending order. */
    method ModulesThatCanBeLoaded() returns (modules: seq<Library>)
      requires forall m :: m in pendingModules ==> m in deps
      ensures modules == Filter(pendingModules, CanLoad(deps, currentModules))
    {
      modules := [];
      for i := 0 to |pendingModules|
        invariant modules == Filter(pendingModules[..i], CanLoad(deps, currentModules))
      {
        var pending := pendingModules[i];
        assert pending in pendingModules;
        var canBeLoaded := true;
        for j := 0 to |deps[pending]|
          invariant canBeLoaded ==> forall d :: d in deps[pending][..j] ==> d in currentModules
          invariant !canBeLoaded ==> !CanLoad(deps, currentModules)(pending)
        {
          if deps[pending][j] !in currentModules {
            canBeLoaded := false;
            break;
          }
        }
        FilterAppend(pendingModules[..i], pending, CanLoad(deps, currentModules));
        assert pendingModules[..i + 1] == pendingModules[..i] + [pending];
        if !canBeLoaded {
          continue;
        }
        modules := modules + [pending];
      }
      assert pendingModules[..|pendingModules|] == pendingModules;
    }

    method MoveOne(m: Library)
      requires steps != []
      modifies this`pendingModules, this`currentModules, this`steps
      ensures pendingModules == Remove(old(pendingModules), m)
      ensures currentModules == old(currentModules) + [m]
      ensures steps == Extended(old(steps), [m])
    {
      steps := steps[|steps| - 1 := steps[|steps| - 1] + [m]];
      pendingModules := Remove(pendingModules, m);
      currentModules := currentModules + [m];
    }

    /** Moves `modules` from the pending libraries to the current ones and into the last step. */
    method Move(modules: seq<Library>)
      requires Distinct(pendingModules) && steps != []
      modifies this`pendingModules, this`currentModules, this`steps
      ensures pendingModules == Filter(old(pendingModules), NotIn(modules))
      ensures currentModules == old(currentModules) + modules
      ensures steps == Extended(old(steps), modules)
    {
      ghost var pending0, steps0 := pendingModules, steps;
      ExtendedMore(steps, [], "");
      FilterAll(pendingModules, NotIn(modules[..0]));
      for i := 0 to |modules|
        invariant pendingModules == Filter(pending0, NotIn(modules[..i]))
        invariant currentModules == old(currentModules) + modules[..i]
        invariant |steps| == |steps0| && steps == Extended(steps0, modules[..i])
      {
        MoveOne(modules[i]);
        OneMoreMoved(pending0, steps0, modules, i);
      }
      assert modules[..|modules|] == modules;
    }

    /** One step: what can be loaded moves from the pending libraries to the current ones. */
    method LoadStep(ghost k: nat)
      requires At(k)
      modifies this`pendingModules, this`currentModules, this`steps
      ensures At(k + 1)
    {
      FilterMembers(keys, PendingAt(deps, k));
      FilterDistinct(keys, PendingAt(deps, k));
      ghost var before := steps;
      steps := steps + [[]];
      var modules := ModulesThatCanBeLoaded();
      FilterMembers(pendingModules, CanLoad(deps, currentModules));
      NextStep(deps, keys, currentModules, k);
      LeftPending(deps, keys, k);
      NowLoaded(deps, keys, currentModules, k);
      StaysClosed(deps, currentModules, modules, |modules|);
      assert modules[..|modules|] == modules;
      Move(modules);
      FlattenAppend(before, modules);
      ExtendedNew(before, modules);
    }

    /**
     The recursion, with the number of stack frames that are left.  It ends after the first step that
     leaves nothing pending, or runs out of frames before it gets there.
     */
    method DependencyOrder(ghost k: nat, frames: nat) returns (ok: bool, ghost r: nat)
      requires At(k)
      modifies this`pendingModules, this`currentModules, this`steps
      ensures At(r)
      ensures ok ==> k <= r < k + frames && AllLoadedBy(deps, r)
      ensures !ok ==> r == k + frames
      ensures k < r ==> !AllLoadedBy(deps, r - 1)
      decreases frames
    {
      if frames == 0 {
        return false, k;
      }
      NothingPending(deps, keys, k);
      if |pendingModules| == 0 {
        return true, k;
      }
      LoadStep(k);
      ok, r := DependencyOrder(k + 1, frames - 1);
    }
  }

  /**
   Sorts the libraries, with `frames` stack frames to recurse in.  This succeeds exactly if everything
   is loaded within one step less than that, and then runs no more steps than it needs.
   */
  method SortToDependencies(deps: Dependencies, keys: seq<Library>, frames: nat)
    returns (r: Result<seq<Library>>, ghost n: nat)
    requires Lists(keys, deps)
    ensures r.Ok? <==> frames > 0 && AllLoadedBy(deps, frames - 1)
    ensures r.Ok? ==> AllLoadedBy(deps, n) && (n > 0 ==> !AllLoadedBy(deps, n - 1))
    ensures r.Ok? ==> r.value == Flatten(Layers(deps, keys, n))
  {
    var ok, steps;
    ok, steps, n := StepsToLoad(deps, keys, frames);
    if !ok {
      return RecursionError, n;
    }
    var sortedLibraries := Extend(steps);
    return Ok(sortedLibraries), n;
  }

  method StepsToLoad(deps: Dependencies, keys: seq<Library>, frames: nat)
    returns (ok: bool, steps: seq<seq<Library>>, ghost n: nat)
    requires Lists(keys, deps)
    ensures ok <==> frames > 0 && AllLoadedBy(deps, frames - 1)
    ensures ok ==> AllLoadedBy(deps, n) && (n > 0 ==> !AllLoadedBy(deps, n - 1)) && steps == Layers(deps, keys, n)
  {
    var sorter := new LoadSorter(deps, keys);
    ok, n := sorter.DependencyOrder(0, frames);
    steps := sorter.steps;
    if ok {
      AllStayLoaded(deps, n, frames - 1);
    }
  }

  method Extend(steps: seq<seq<Library>>) returns (sortedLibraries: seq<Library>)
    ensures sortedLibraries == Flatten(steps)
  {
    sortedLibraries := [];
    for i := 0 to |steps|
      invariant sortedLibraries == Flatten(steps[..i])
    {
      FlattenAppend(steps[..i], steps[i]);
      assert steps[..i + 1] == steps[..i] + [steps[i]];
      sortedLibraries := sortedLibraries + steps[i];
    }
    assert steps[..|steps|] == steps;
  }

  lemma AllStayLoaded(deps: Dependencies, k: nat, l: nat)
    requires AllLoadedBy(deps, k) && k <= l
    ensures AllLoadedBy(deps, l)
  {
    forall m | m in deps ensures LoadedBy(deps, m, l) {
      StaysLoaded(deps, m, k, l);
    }
  }

  /******* What the order is *******/

  /** Each library comes after all it depends on. */
  ghost predicate InOrder(order: seq<Library>, deps: Dependencies) {
    forall j, d :: 0 <= j < |order| && order[j] in deps && d in deps[order[j]] ==> d in order[..j]
  }

  /** Every library once, each after all it depends on. */
  ghost predicate IsLoadOrder(order: seq<Library>, deps: Dependencies) {
    Lists(order, deps) && InOrder(order, deps)
  }

  lemma InOrderConcat(front: seq<Library>, layer: seq<Library>, deps: Dependencies)
    requires InOrder(front, deps)
    requires forall m, d :: m in layer && m in deps && d in deps[m] ==> d in front
    ensures InOrder(front + layer, deps)
  {
    var order := front + layer;
    forall j, d | 0 <= j < |order| && order[j] in deps && d in deps[order[j]] ensures d in order[..j] {
      if j < |front| {
        assert order[..j] == front[..j];
      } else {
        assert order[j] in layer;
        assert order[..j] == front + layer[..j - |front|];
      }
    }
  }

  lemma {:induction false} LayersInOrder(deps: Dependencies, keys: seq<Library>, n: nat)
    requires Lists(keys, deps)
    ensures Distinct(Flatten(Layers(deps, keys, n)))
    ensures Holds(Flatten(Layers(deps, keys, n)), deps, n)
    ensures InOrder(Flatten(Layers(deps, keys, n)), deps)
  {
    if n > 0 {
      LayersInOrder(deps, keys, n - 1);
      var front, layer := Flatten(Layers(deps, keys, n - 1)), Filter(keys, LoadsAt(deps, n - 1));
      assert Flatten(Layers(deps, keys, n)) == front + layer by {
        FlattenAppend(Layers(deps, keys, n - 1), layer);
      }
      FilterMembers(keys, LoadsAt(deps, n - 1));
      assert Distinct(front + layer) by {
        FilterDistinct(keys, LoadsAt(deps, n - 1));
        DistinctConcat(front, layer);
      }
      assert Holds(front + layer, deps, n) by {
        NowLoaded(deps, keys, front, n - 1);
      }
      assert InOrder(front + layer, deps) by {
        forall m, d | m in layer && m in deps && d in deps[m] ensures d in front {
          assert LoadsAt(deps, n - 1)(m);
        }
        InOrderConcat(front, layer, deps);
      }
    }
  }

  lemma DistinctConcat(s: seq<Library>, t: seq<Library>)
    requires Distinct(s) && Distinct(t) && forall m :: m in t ==> m !in s
    ensures Distinct(s + t)
  {
    forall i, j | 0 <= i < j < |s + t| ensures (s + t)[i] != (s + t)[j] {
      if i < |s| <= j {
        assert (s + t)[i] in s && (s + t)[j] in t;
      }
    }
  }

  ghost function LongestChainIs(deps: Dependencies, k: nat): Library -> bool {
    (m: Library) => LongestChain(deps, m, k)
  }

  /**
   Where neither a cycle nor a missing library is in the way, the sorted list is a load order; step `k`
   holds, in the order of the keys, exactly the libraries whose longest chain has length `k`.
   */
  lemma {:induction false} SortedIsLoadOrder(deps: Dependencies, keys: seq<Library>, n: nat)
    requires Lists(keys, deps) && AllLoadedBy(deps, n)
    ensures IsLoadOrder(Flatten(Layers(deps, keys, n)), deps)
    ensures forall k :: 0 <= k < n ==> Layers(deps, keys, n)[k] == Filter(keys, LongestChainIs(deps, k))
    ensures NoneMissing(deps) && Acyclic(deps)
  {
    LoadsIffWellFounded(deps);
    LayersInOrder(deps, keys, n);
    var order := Flatten(Layers(deps, keys, n));
    forall m ensures m in order <==> m in deps {
      assert LoadedBy(deps, m, n) ==> m in deps;
    }
    forall k | 0 <= k < n
      ensures Filter(keys, LoadsAt(deps, k)) == Filter(keys, LongestChainIs(deps, k))
    {
      forall m | m in keys ensures LoadsAt(deps, k)(m) == LongestChainIs(deps, k)(m) {
        LoadedMeansShortChains(deps, m, n);
        LoadedAtStep(deps, m, k);
      }
      FilterSame(keys, LoadsAt(deps, k), LongestChainIs(deps, k));
    }
  }

  /** With a frame to spare for every library, sorting succeeds exactly if it can at all. */
  lemma EnoughFrames(deps: Dependencies, frames: nat)
    requires frames > |deps|
    ensures AllLoadedBy(deps, frames - 1) <==> NoneMissing(deps) && Acyclic(deps)
  {
    LoadsIffWellFounded(deps);
    if NoneMissing(deps) && Acyclic(deps) {
      AcyclicLoads(deps);
      AllStayLoaded(deps, |deps|, frames - 1);
    }
  }

  /******* When it gets stuck *******/

  lemma {:induction false} FilterSplit(s: seq<Library>, f: Library -> bool, g: Library -> bool, h: Library -> bool)
    requires forall m :: m in s ==> f(m) == (g(m) || h(m)) && !(g(m) && h(m))
    ensures |Filter(s, f)| == |Filter(s, g)| + |Filter(s, h)|
  {
    if s != [] {
      assert s[|s| - 1] in s;
      FilterSplit(s[..|s| - 1], f, g, h);
    }
  }

  /** An empty step is followed by empty steps only: what is pending stays pending. */
  lemma {:induction false} EmptyStepRepeats(deps: Dependencies, k: nat, l: nat)
    requires k <= l && forall m :: LoadedBy(deps, m, k + 1) ==> LoadedBy(deps, m, k)
    ensures forall m :: LoadedBy(deps, m, l) <==> LoadedBy(deps, m, k)
    decreases l
  {
    if k < l {
      EmptyStepRepeats(deps, k, l - 1);
      forall m ensures LoadedBy(deps, m, l) <==> LoadedBy(deps, m, k) {
        if LoadedBy(deps, m, l) {
          assert forall d :: d in deps[m] ==> LoadedBy(deps, d, k);
          assert LoadedBy(deps, m, k + 1);
        }
        if LoadedBy(deps, m, k) {
          StaysLoaded(deps, m, k, l);
        }
      }
    }
  }

  lemma {:induction false} FindEmptyStep(deps: Dependencies, keys: seq<Library>, k: nat) returns (e: nat)
    requires Lists(keys, deps)
    ensures k <= e <= k + |Filter(keys, PendingAt(deps, k))|
    ensures Filter(keys, LoadsAt(deps, e)) == []
    decreases |Filter(keys, PendingAt(deps, k))|
  {
    if Filter(keys, LoadsAt(deps, k)) == [] {
      e := k;
    } else {
      forall m | m in keys
        ensures PendingAt(deps, k)(m) == (LoadsAt(deps, k)(m) || PendingAt(deps, k + 1)(m))
        ensures !(LoadsAt(deps, k)(m) && PendingAt(deps, k + 1)(m))
      {
        if LoadedBy(deps, m, k) {
          StaysLoaded(deps, m, k, k + 1);
        }
      }
      FilterSplit(keys, PendingAt(deps, k), LoadsAt(deps, k), PendingAt(deps, k + 1));
      e := FindEmptyStep(deps, keys, k + 1);
    }
  }

  /**
   With a cycle or a missing library, some step loads nothing while libraries are pending, and from
   then on every step finds the same libraries pending: the recursion never ends by itself.
   */
  lemma StuckForever(deps: Dependencies, keys: seq<Library>) returns (e: nat)
    requires Lists(keys, deps) && !(NoneMissing(deps) && Acyclic(deps))
    ensures e <= |keys| && Filter(keys, LoadsAt(deps, e)) == [] && Filter(keys, PendingAt(deps, e)) != []
    ensures forall l :: e <= l ==> Filter(keys, PendingAt(deps, l)) == Filter(keys, PendingAt(deps, e))
  {
    FilterAll(keys, PendingAt(deps, 0));
    e := FindEmptyStep(deps, keys, 0);
    FilterMembers(keys, LoadsAt(deps, e));
    forall m | LoadedBy(deps, m, e + 1) ensures LoadedBy(deps, m, e) {
      assert LoadsAt(deps, e)(m) ==> m in Filter(keys, LoadsAt(deps, e));
    }
    forall l | e <= l ensures Filter(keys, PendingAt(deps, l)) == Filter(keys, PendingAt(deps, e)) {
      EmptyStepRepeats(deps, e, l);
      FilterSame(keys, PendingAt(deps, l), PendingAt(deps, e));
    }
    LoadsIffWellFounded(deps);
    NothingPending(deps, keys, e);
  }
}
