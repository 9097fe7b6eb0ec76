/**
 Gathering of configuration paths from the registered types.  The type database is a labelled
 graph; `DoGather` walks it with two explicit stacks and records where every path leads.
 */
module Introspection {
  import opened SimplePaths

  type TypeId = Node

  datatype Option<+T> = None | Some(value: T)

  /** An attribute and what its checker points to. */
  datatype Attribute =
    | PointerTo(name: string, pointee: TypeId)
    | ContainerOf(name: string, item: TypeId)
    | Plain(name: string)

  datatype TypeInfo = TypeInfo(name: string, attributes: seq<Attribute>)

  /** The registered types, in registration order; a TypeId is an index into them. */
  datatype TypeDatabase = TypeDatabase(
    types: seq<TypeInfo>,
    objectType: TypeId,
    descents: set<(TypeId, TypeId)>)
  {
    predicate Valid() {
      forall t, k :: 0 <= t < |types| && 0 <= k < |types[t].attributes| ==> Refers(types[t].attributes[k])
    }

    predicate Refers(a: Attribute) {
      && (a.PointerTo? ==> a.pointee < |types|)
      && (a.ContainerOf? ==> a.item < |types|)
    }

    /** Strict descent: a type is not its own child. */
    predicate IsChildOf(child: TypeId, t: TypeId) {
      child != t && (child, t) in descents
    }

    /** The first type registered under `name`, at or after position `i`. */
    function LookupByName(name: string, i: nat := 0): (r: Option<TypeId>)
      requires i <= |types|
      ensures r.Some? ==> r.value < |types| && types[r.value].name == name
      ensures r.None? ==> forall k :: i <= k < |types| ==> types[k].name != name
      decreases |types| - i
    {
      if i == |types| then None
      else if types[i].name == name then Some(i)
      else LookupByName(name, i + 1)
    }

    /** The types of two names, if both are known. */
    function Known(a: string, b: string): Aggregates {
      var aTid, bTid := LookupByName(a), LookupByName(b);
      if aTid.Some? && bTid.Some? then [(aTid.value, bTid.value)] else []
    }
  }

  type Aggregates = seq<(TypeId, TypeId)>

  ghost predicate KnownAggregates(db: TypeDatabase, aggregates: Aggregates) {
    forall i :: 0 <= i < |aggregates| ==> aggregates[i].0 < |db.types| && aggregates[i].1 < |db.types|
  }

  /******* The graph that the type database stands for *******/

  /** A pointer leads to its pointee, unless that is a plain Object; a container to its items. */
  function AttributeEdge(db: TypeDatabase, a: Attribute): seq<Edge> {
    match a
    case PointerTo(name, pointee) => if pointee == db.objectType then [] else [Edge(name, pointee)]
    case ContainerOf(name, item) => [Edge(name + "/[i]", item)]
    case Plain(_) => []
  }

  /** The edges of the first `n` attributes. */
  ghost function AttributeEdges(db: TypeDatabase, attributes: seq<Attribute>, n: nat): seq<Edge>
    requires n <= |attributes|
  {
    if n == 0 then [] else AttributeEdges(db, attributes, n - 1) + AttributeEdge(db, attributes[n - 1])
  }

  function DescendantEdge(db: TypeDatabase, t: TypeId, child: TypeId): seq<Edge>
    requires child < |db.types|
  {
    if db.IsChildOf(child, t) then [Edge("$" + db.types[child].name, child)] else []
  }

  /** The edges from `t` to its strict descendants among the first `n` registered types. */
  ghost function DescendantEdges(db: TypeDatabase, t: TypeId, n: nat): seq<Edge>
    requires n <= |db.types|
  {
    if n == 0 then [] else DescendantEdges(db, t, n - 1) + DescendantEdge(db, t, n - 1)
  }

  /** Aggregation works both ways: either partner leads to the other. */
  function AggregateEdge(db: TypeDatabase, t: TypeId, pair: (TypeId, TypeId)): seq<Edge>
    requires pair.0 < |db.types| && pair.1 < |db.types|
  {
    if pair.0 == t || pair.1 == t then [Edge("$" + db.types[Partner(t, pair)].name, Partner(t, pair))] else []
  }

  function Partner(t: TypeId, pair: (TypeId, TypeId)): TypeId {
    if pair.1 == t then pair.0 else pair.1
  }

  /** The edges of `t` that come from the first `n` aggregation pairs. */
  ghost function AggregateEdges(db: TypeDatabase, aggregates: Aggregates, t: TypeId, n: nat): seq<Edge>
    requires KnownAggregates(db, aggregates) && n <= |aggregates|
  {
    if n == 0 then [] else AggregateEdges(db, aggregates, t, n - 1) + AggregateEdge(db, t, aggregates[n - 1])
  }

  ghost function OutEdges(db: TypeDatabase, aggregates: Aggregates, t: TypeId): seq<Edge>
    requires t < |db.types| && KnownAggregates(db, aggregates)
  {
    AttributeEdges(db, db.types[t].attributes, |db.types[t].attributes|)
    + DescendantEdges(db, t, |db.types|)
    + AggregateEdges(db, aggregates, t, |aggregates|)
  }

  ghost predicate IsTypeGraph(g: Graph, db: TypeDatabase, aggregates: Aggregates) {
    && db.Valid()
    && KnownAggregates(db, aggregates)
    && |g| == |db.types|
    && ValidGraph(g)
    && (forall t {:trigger OutEdges(db, aggregates, t)} :: 0 <= t < |g| ==> g[t] == OutEdges(db, aggregates, t))
  }

  ghost function TypeGraph(db: TypeDatabase, aggregates: Aggregates): (g: Graph)
    requires db.Valid() && KnownAggregates(db, aggregates)
    ensures IsTypeGraph(g, db, aggregates)
  {
    var g := seq(|db.types|, t requires 0 <= t < |db.types| => OutEdges(db, aggregates, t));
    assert ValidGraph(g) by {
      forall t | 0 <= t < |g| ensures forall k :: 0 <= k < |g[t]| ==> g[t][k].target < |g| {
        AttributeTargets(db, db.types[t].attributes, |db.types[t].attributes|);
        DescendantTargets(db, t, |db.types|);
        AggregateTargets(db, aggregates, t, |aggregates|);
      }
    }
    g
  }

  lemma {:induction false} AttributeTargets(db: TypeDatabase, attributes: seq<Attribute>, n: nat)
    requires n <= |attributes| && forall k :: 0 <= k < |attributes| ==> db.Refers(attributes[k])
    ensures forall e :: e in AttributeEdges(db, attributes, n) ==> e.target < |db.types|
  {
    if n > 0 {
      AttributeTargets(db, attributes, n - 1);
    }
  }

  lemma {:induction false} DescendantTargets(db: TypeDatabase, t: TypeId, n: nat)
    requires n <= |db.types|
    ensures forall e :: e in DescendantEdges(db, t, n) ==> e.target < |db.types|
  {
    if n > 0 {
      DescendantTargets(db, t, n - 1);
    }
  }

  lemma {:induction false} AggregateTargets(db: TypeDatabase, aggregates: Aggregates, t: TypeId, n: nat)
    requires KnownAggregates(db, aggregates) && n <= |aggregates|
    ensures forall e :: e in AggregateEdges(db, aggregates, t, n) ==> e.target < |db.types|
  {
    if n > 0 {
      AggregateTargets(db, aggregates, t, n - 1);
    }
  }

  /** How many edges of `t` come from its first `i` attributes. */
  ghost function AttributeCount(db: TypeDatabase, t: TypeId, i: nat): nat
    requires t < |db.types| && i <= |db.types[t].attributes|
  {
    |AttributeEdges(db, db.types[t].attributes, i)|
  }

  /** How many come from all attributes and the first `j` registered types. */
  ghost function DescendantCount(db: TypeDatabase, t: TypeId, j: nat): nat
    requires t < |db.types| && j <= |db.types|
  {
    AttributeCount(db, t, |db.types[t].attributes|) + |DescendantEdges(db, t, j)|
  }

  /** How many come from all attributes, all registered types and the first `k` aggregation pairs. */
  ghost function AggregateCount(db: TypeDatabase, aggregates: Aggregates, t: TypeId, k: nat): nat
    requires t < |db.types| && KnownAggregates(db, aggregates) && k <= |aggregates|
  {
    DescendantCount(db, t, |db.types|) + |AggregateEdges(db, aggregates, t, k)|
  }

  /** The edge, if any, in `es` is edge `n` of `t`. */
  ghost predicate EdgesAt(g: Graph, t: TypeId, n: nat, es: seq<Edge>)
    requires t < |g|
  {
    n + |es| <= |g[t]| && (es != [] ==> g[t][n] == es[0])
  }

  lemma {:induction false} AttributePrefix(db: TypeDatabase, attributes: seq<Attribute>, i: nat, n: nat)
    requires i <= n <= |attributes|
    ensures AttributeEdges(db, attributes, i) <= AttributeEdges(db, attributes, n)
  {
    if i < n {
      AttributePrefix(db, attributes, i, n - 1);
    }
  }

  lemma {:induction false} DescendantPrefix(db: TypeDatabase, t: TypeId, i: nat, n: nat)
    requires i <= n <= |db.types|
    ensures DescendantEdges(db, t, i) <= DescendantEdges(db, t, n)
  {
    if i < n {
      DescendantPrefix(db, t, i, n - 1);
    }
  }

  lemma {:induction false} AggregatePrefix(db: TypeDatabase, aggregates: Aggregates, t: TypeId, i: nat, n: nat)
    requires KnownAggregates(db, aggregates) && i <= n <= |aggregates|
    ensures AggregateEdges(db, aggregates, t, i) <= AggregateEdges(db, aggregates, t, n)
  {
    if i < n {
      AggregatePrefix(db, aggregates, t, i, n - 1);
    }
  }

  /** Where the next edge is in a list of edges made of three parts. */
  lemma PlaceOf(all: seq<Edge>, front: seq<Edge>, part: seq<Edge>, back: seq<Edge>, done: seq<Edge>, next: seq<Edge>)
    requires all == front + part + back && done + next <= part
    ensures |front| + |done| + |next| <= |all|
    ensures next != [] ==> all[|front| + |done|] == next[0]
  {
    assert next != [] ==> (done + next)[|done|] == next[0];
  }

  lemma AttributeStep(g: Graph, db: TypeDatabase, aggregates: Aggregates, t: TypeId, i: nat)
    requires IsTypeGraph(g, db, aggregates) && t < |g| && i < |db.types[t].attributes|
    ensures EdgesAt(g, t, AttributeCount(db, t, i), AttributeEdge(db, db.types[t].attributes[i]))
    ensures AttributeCount(db, t, i + 1)
         == AttributeCount(db, t, i) + |AttributeEdge(db, db.types[t].attributes[i])|
  {
    var attributes := db.types[t].attributes;
    AttributePrefix(db, attributes, i + 1, |attributes|);
    assert g[t] == OutEdges(db, aggregates, t);
    PlaceOf(g[t], [], AttributeEdges(db, attributes, |attributes|),
            DescendantEdges(db, t, |db.types|) + AggregateEdges(db, aggregates, t, |aggregates|),
            AttributeEdges(db, attributes, i), AttributeEdge(db, attributes[i]));
  }

  lemma DescendantStep(g: Graph, db: TypeDatabase, aggregates: Aggregates, t: TypeId, child: TypeId)
    requires IsTypeGraph(g, db, aggregates) && t < |g| && child < |g|
    ensures EdgesAt(g, t, DescendantCount(db, t, child), DescendantEdge(db, t, child))
    ensures DescendantCount(db, t, child + 1)
         == DescendantCount(db, t, child) + |DescendantEdge(db, t, child)|
  {
    var attributes := db.types[t].attributes;
    DescendantPrefix(db, t, child + 1, |db.types|);
    assert g[t] == OutEdges(db, aggregates, t);
    PlaceOf(g[t], AttributeEdges(db, attributes, |attributes|), DescendantEdges(db, t, |db.types|),
            AggregateEdges(db, aggregates, t, |aggregates|), DescendantEdges(db, t, child), DescendantEdge(db, t, child));
  }

  lemma AggregateStep(g: Graph, db: TypeDatabase, aggregates: Aggregates, t: TypeId, i: nat)
    requires IsTypeGraph(g, db, aggregates) && t < |g| && i < |aggregates|
    ensures EdgesAt(g, t, AggregateCount(db, aggregates, t, i), AggregateEdge(db, t, aggregates[i]))
    ensures AggregateCount(db, aggregates, t, i + 1)
         == AggregateCount(db, aggregates, t, i) + |AggregateEdge(db, t, aggregates[i])|
  {
    var attributes := db.types[t].attributes;
    AggregatePrefix(db, aggregates, t, i + 1, |aggregates|);
    assert g[t] == OutEdges(db, aggregates, t);
    PlaceOf(g[t], AttributeEdges(db, attributes, |attributes|) + DescendantEdges(db, t, |db.types|),
            AggregateEdges(db, aggregates, t, |aggregates|), [],
            AggregateEdges(db, aggregates, t, i), AggregateEdge(db, t, aggregates[i]));
  }

  /** The three groups follow one another and make up all edges of `t`. */
  lemma CountsMeet(g: Graph, db: TypeDatabase, aggregates: Aggregates, t: TypeId)
    requires IsTypeGraph(g, db, aggregates) && t < |g|
    ensures AttributeCount(db, t, 0) == 0
    ensures DescendantCount(db, t, 0) == AttributeCount(db, t, |db.types[t].attributes|)
    ensures AggregateCount(db, aggregates, t, 0) == DescendantCount(db, t, |db.types|)
    ensures AggregateCount(db, aggregates, t, |aggregates|) == |g[t]|
  {
    assert g[t] == OutEdges(db, aggregates, t);
  }

  /******* What is recorded *******/

  type Entry = (TypeId, string)

  /** Every label preceded by a slash. */
  function Render(labels: seq<string>): string {
    if labels == [] then "" else Render(labels[..|labels| - 1]) + "/" + labels[|labels| - 1]
  }

  ghost function EntryOf(g: Graph, t: TypeId, prefix: seq<string>, p: Path): Entry
  {
    (Destination(g, t, p), Render(prefix + Labels(g, t, p)))
  }

  /** One entry for each path of `ps`, all starting at `t`, below the labels of `prefix`. */
  ghost function Entries(g: Graph, t: TypeId, prefix: seq<string>, ps: seq<Path>): (es: seq<Entry>)
    ensures |es| == |ps|
    ensures forall i :: 0 <= i < |ps| ==> es[i] == EntryOf(g, t, prefix, ps[i])
  {
    seq(|ps|, i requires 0 <= i < |ps| => EntryOf(g, t, prefix, ps[i]))
  }

  /** What a depth-first walk from `t` records below the labels of `prefix`, stopping at nodes of `seen`. */
  ghost function Found(g: Graph, t: TypeId, prefix: seq<string>, seen: seq<TypeId>): seq<Entry>
    requires ValidGraph(g) && t < |g|
    decreases Unseen(|g|, seen), |g[t]| + 1
  {
    if t in seen then [] else [(t, Render(prefix))] + FoundThrough(g, t, prefix, seen, |g[t]|)
  }

  /** The part of it that is found through the first `n` edges of `t`. */
  ghost function FoundThrough(g: Graph, t: TypeId, prefix: seq<string>, seen: seq<TypeId>, n: nat): seq<Entry>
    requires ValidGraph(g) && t < |g| && t !in seen && n <= |g[t]|
    decreases Unseen(|g|, seen), n
  {
    if n == 0 then []
    else
      UnseenShrinks(|g|, t, seen);
      FoundThrough(g, t, prefix, seen, n - 1)
      + Found(g, g[t][n - 1].target, prefix + [g[t][n - 1].name], seen + [t])
  }

  /** The walk records one entry for each path of the enumeration, in its order. */
  lemma {:induction false} FoundAreEntries(g: Graph, t: TypeId, prefix: seq<string>, seen: seq<TypeId>)
    requires ValidGraph(g) && t < |g|
    ensures Found(g, t, prefix, seen) == Entries(g, t, prefix, PathsFrom(g, t, seen))
    decreases Unseen(|g|, seen), |g[t]| + 1
  {
    if t !in seen {
      FoundThroughAreEntries(g, t, prefix, seen, |g[t]|);
      assert prefix + Labels(g, t, []) == prefix;
    }
  }

  lemma {:induction false} FoundThroughAreEntries(
      g: Graph, t: TypeId, prefix: seq<string>, seen: seq<TypeId>, n: nat)
    requires ValidGraph(g) && t < |g| && t !in seen && n <= |g[t]|
    ensures FoundThrough(g, t, prefix, seen, n) == Entries(g, t, prefix, Branches(g, t, seen, n))
    decreases Unseen(|g|, seen), n
  {
    if n > 0 {
      var e := g[t][n - 1];
      UnseenShrinks(|g|, t, seen);
      FoundThroughAreEntries(g, t, prefix, seen, n - 1);
      FoundAreEntries(g, e.target, prefix + [e.name], seen + [t]);
      var tails := PathsFrom(g, e.target, seen + [t]);
      EntriesPrepend(g, t, prefix, n - 1, tails);
      EntriesConcat(g, t, prefix, Branches(g, t, seen, n - 1), Prepend(n - 1, tails));
    }
  }

  lemma EntriesConcat(g: Graph, t: TypeId, prefix: seq<string>, ps: seq<Path>, qs: seq<Path>)
    ensures Entries(g, t, prefix, ps + qs) == Entries(g, t, prefix, ps) + Entries(g, t, prefix, qs)
  {
  }

  lemma EntriesPrepend(g: Graph, t: TypeId, prefix: seq<string>, n: nat, ps: seq<Path>)
    requires t < |g| && n < |g[t]|
    ensures Entries(g, t, prefix, Prepend(n, ps)) == Entries(g, g[t][n].target, prefix + [g[t][n].name], ps)
  {
    forall i | 0 <= i < |ps|
      ensures EntryOf(g, t, prefix, [n] + ps[i]) == EntryOf(g, g[t][n].target, prefix + [g[t][n].name], ps[i])
    {
      EntryOfLonger(g, t, prefix, n, ps[i]);
    }
  }

  /** Taking one more edge first is the same as starting below its label. */
  lemma EntryOfLonger(g: Graph, t: TypeId, prefix: seq<string>, n: nat, p: Path)
    requires t < |g| && n < |g[t]|
    ensures EntryOf(g, t, prefix, [n] + p) == EntryOf(g, g[t][n].target, prefix + [g[t][n].name], p)
  {
    assert ([n] + p)[1..] == p;
    assert prefix + Labels(g, t, [n] + p) == prefix + [g[t][n].name] + Labels(g, g[t][n].target, p);
  }

  /** The recorded strings of one type, in the order they were recorded. */
  function PathsOf(output: seq<Entry>, t: TypeId): seq<string> {
    if output == [] then []
    else
      PathsOf(output[..|output| - 1], t)
      + if output[|output| - 1].0 == t then [output[|output| - 1].1] else []
  }

  /** The paths of `ps` that end at `last`, in the same order. */
  ghost function EndingAt(g: Graph, t: TypeId, ps: seq<Path>, last: TypeId): (qs: seq<Path>)
    ensures forall p :: p in qs <==> p in ps && Destination(g, t, p) == last
  {
    if ps == [] then []
    else
      EndingAt(g, t, ps[..|ps| - 1], last)
      + if Destination(g, t, ps[|ps| - 1]) == last then [ps[|ps| - 1]] else []
  }

  lemma {:induction false} EndingAtIncreases(g: Graph, t: TypeId, ps: seq<Path>, last: TypeId)
    requires Increasing(ps)
    ensures Increasing(EndingAt(g, t, ps, last))
  {
    if ps != [] {
      var init := ps[..|ps| - 1];
      EndingAtIncreases(g, t, init, last);
      var front := EndingAt(g, t, init, last);
      forall k | 0 <= k < |front| ensures Before(front[k], ps[|ps| - 1]) {
        assert front[k] in front;
        var i :| 0 <= i < |init| && init[i] == front[k];
        assert Before(ps[i], ps[|ps| - 1]);
      }
    }
  }

  lemma PathsOfLonger(es: seq<Entry>, e: Entry, t: TypeId)
    ensures PathsOf(es + [e], t) == PathsOf(es, t) + if e.0 == t then [e.1] else []
  {
  }

  ghost function Renderings(g: Graph, t: TypeId, ps: seq<Path>): (r: seq<string>)
    ensures |r| == |ps| && forall i :: 0 <= i < |ps| ==> r[i] == Render(Labels(g, t, ps[i]))
  {
    seq(|ps|, i requires 0 <= i < |ps| => Render(Labels(g, t, ps[i])))
  }

  lemma RenderingsOfLonger(g: Graph, t: TypeId, ps: seq<Path>, p: Path)
    ensures Renderings(g, t, ps + [p]) == Renderings(g, t, ps) + [Render(Labels(g, t, p))]
    ensures Entries(g, t, [], ps + [p]) == Entries(g, t, [], ps) + [(Destination(g, t, p), Render(Labels(g, t, p)))]
  {
    assert [] + Labels(g, t, p) == Labels(g, t, p);
  }

  lemma {:induction false} PathsOfEntries(g: Graph, t: TypeId, ps: seq<Path>, last: TypeId)
    ensures PathsOf(Entries(g, t, [], ps), last) == Renderings(g, t, EndingAt(g, t, ps, last))
  {
    if ps != [] {
      var init, p := ps[..|ps| - 1], ps[|ps| - 1];
      PathsOfEntries(g, t, init, last);
      assert ps == init + [p];
      OneMoreEntry(g, t, init, p, last);
    }
  }

  lemma OneMoreEntry(g: Graph, t: TypeId, ps: seq<Path>, p: Path, last: TypeId)
    requires PathsOf(Entries(g, t, [], ps), last) == Renderings(g, t, EndingAt(g, t, ps, last))
    ensures PathsOf(Entries(g, t, [], ps + [p]), last) == Renderings(g, t, EndingAt(g, t, ps + [p], last))
  {
    PathsOfOneMore(g, t, ps, p, last);
    EndingAtOneMore(g, t, ps, p, last);
    RenderingsOfLonger(g, t, EndingAt(g, t, ps, last), p);
  }

  lemma EndingAtOneMore(g: Graph, t: TypeId, ps: seq<Path>, p: Path, last: TypeId)
    ensures EndingAt(g, t, ps + [p], last) == EndingAt(g, t, ps, last) + if Destination(g, t, p) == last then [p] else []
  {
    assert (ps + [p])[..|ps|] == ps;
  }

  lemma PathsOfOneMore(g: Graph, t: TypeId, ps: seq<Path>, p: Path, last: TypeId)
    ensures PathsOf(Entries(g, t, [], ps + [p]), last)
         == PathsOf(Entries(g, t, [], ps), last)
          + if Destination(g, t, p) == last then [Render(Labels(g, t, p))] else []
  {
    RenderingsOfLonger(g, t, ps, p);
    PathsOfLonger(Entries(g, t, [], ps), (Destination(g, t, p), Render(Labels(g, t, p))), last);
  }

  /**
   Looking up one type among what a gathering from `root` recorded yields exactly the renderings of
   the simple paths from `root` that end at that type, once each and in preorder.
   */
  lemma LookupFindsPathsEndingAt(g: Graph, root: TypeId, ps: seq<Path>, last: TypeId) returns (qs: seq<Path>)
    requires ValidGraph(g) && root < |g| && Enumerates(ps, g, root, [])
    ensures qs == EndingAt(g, root, ps, last) && Increasing(qs)
    ensures forall p :: p in qs <==> IsSimplePath(g, root, [], p) && Destination(g, root, p) == last
    ensures PathsOf(Entries(g, root, [], ps), last) == Renderings(g, root, qs)
  {
    qs := EndingAt(g, root, ps, last);
    EndingAtIncreases(g, root, ps, last);
    PathsOfEntries(g, root, ps, last);
  }

  /******* The walk with its two stacks *******/

  lemma ConcatAssociates<T>(a: seq<T>, b: seq<T>, c: seq<T>)
    ensures a + b + c == a + (b + c)
  {
  }

  class StaticInformation {
    const db: TypeDatabase
    var output: seq<Entry>
    var currentPath: seq<string>
    var alreadyProcessed: seq<TypeId>
    var aggregates: Aggregates
    var noTids: seq<string>

    ghost predicate Valid()
      reads this
    {
      && db.Valid()
      && KnownAggregates(db, aggregates)
      && |currentPath| == |alreadyProcessed|
      && NoRepeats(alreadyProcessed)
    }

    /** Between calls from outside both stacks are empty. */
    ghost predicate Ready()
      reads this
    {
      Valid() && alreadyProcessed == []
    }

    constructor (db: TypeDatabase)
      requires db.Valid()
      ensures Ready() && this.db == db && output == [] && aggregates == [] && noTids == []
    {
      this.db := db;
      output, currentPath, alreadyProcessed, aggregates, noTids := [], [], [], [], [];
    }

    /** Only the first unknown name of the pair is noted; nothing is aggregated then. */
    method RecordAggregationInfo(a: string, b: string)
      requires Valid()
      modifies this`aggregates, this`noTids
      ensures Valid()
      ensures var aTid, bTid := db.LookupByName(a), db.LookupByName(b);
        if aTid.None? then aggregates == old(aggregates) && noTids == old(noTids) + [a]
        else if bTid.None? then aggregates == old(aggregates) && noTids == old(noTids) + [b]
        else aggregates == old(aggregates) + [(aTid.value, bTid.value)] && noTids == old(noTids)
      ensures aggregates == old(aggregates) + db.Known(a, b)
    {
      var aTid := db.LookupByName(a);
      if aTid.None? {
        noTids := noTids + [a];
        return;
      }
      var bTid := db.LookupByName(b);
      if bTid.None? {
        noTids := noTids + [b];
        return;
      }
      aggregates := aggregates + [(aTid.value, bTid.value)];
    }

    method GetCurrentPath() returns (path: string)
      ensures path == Render(currentPath)
    {
      path := "";
      for i := 0 to |currentPath|
        invariant path == Render(currentPath[..i])
      {
        assert currentPath[..i + 1][..i] == currentPath[..i];
        path := path + "/" + currentPath[i];
      }
      assert currentPath[..|currentPath|] == currentPath;
    }

    method RecordOutput(tid: TypeId)
      modifies this`output
      ensures output == old(output) + [(tid, Render(currentPath))]
    {
      var path := GetCurrentPath();
      output := output + [(tid, path)];
    }

    method HasAlreadyBeenProcessed(tid: TypeId) returns (found: bool)
      ensures found <==> tid in alreadyProcessed
    {
      for i := 0 to |alreadyProcessed|
        invariant tid !in alreadyProcessed[..i]
      {
        if alreadyProcessed[i] == tid {
          return true;
        }
      }
      return false;
    }

    method Get(tid: TypeId) returns (paths: seq<string>)
      ensures paths == PathsOf(output, tid)
    {
      paths := [];
      for i := 0 to |output|
        invariant paths == PathsOf(output[..i], tid)
      {
        assert output[..i + 1][..i] == output[..i];
        if output[i].0 == tid {
          paths := paths + [output[i].1];
        }
      }
      assert output[..|output|] == output;
    }

    /**
     Records one entry for each simple path from `tid` that is clear of the types on the stack.
     Both stacks come back as they were.
     */
    method DoGather(tid: TypeId, ghost g: Graph)
      requires Valid() && IsTypeGraph(g, db, aggregates) && tid < |g|
      modifies this`output, this`currentPath, this`alreadyProcessed
      ensures currentPath == old(currentPath) && alreadyProcessed == old(alreadyProcessed)
      ensures output == old(output) + Found(g, tid, currentPath, alreadyProcessed)
      decreases Unseen(|g|, alreadyProcessed), 4
    {
      var processed := HasAlreadyBeenProcessed(tid);
      if processed {
        return;
      }
      RecordOutput(tid);
      ghost var base := output;
      CountsMeet(g, db, aggregates, tid);
      ghost var n := GatherAttributes(tid, g, base);
      n := GatherDescendants(tid, g, n, base);
      n := GatherAggregates(tid, g, n, base);
      ConcatAssociates(old(output), [(tid, Render(currentPath))],
        FoundThrough(g, tid, currentPath, alreadyProcessed, |g[tid]|));
    }

    /** The walk's loop over the attributes of `tid`. */
    method GatherAttributes(tid: TypeId, ghost g: Graph, ghost base: seq<Entry>) returns (ghost n: nat)
      requires Valid() && IsTypeGraph(g, db, aggregates) && tid < |g| && tid !in alreadyProcessed
      requires output == base && AttributeCount(db, tid, 0) == 0
      modifies this`output, this`currentPath, this`alreadyProcessed
      ensures currentPath == old(currentPath) && alreadyProcessed == old(alreadyProcessed)
      ensures n == AttributeCount(db, tid, |db.types[tid].attributes|) <= |g[tid]|
      ensures output == base + FoundThrough(g, tid, currentPath, alreadyProcessed, n)
      decreases Unseen(|g|, alreadyProcessed), 3
    {
      n := 0;
      var attributes := db.types[tid].attributes;
      for i := 0 to |attributes|
        invariant currentPath == old(currentPath) && alreadyProcessed == old(alreadyProcessed)
        invariant n == AttributeCount(db, tid, i) <= |g[tid]|
        invariant output == base + FoundThrough(g, tid, currentPath, alreadyProcessed, n)
      {
        AttributeStep(g, db, aggregates, tid, i);
        match attributes[i] {
          case PointerTo(name, pointee) =>
            if db.objectType != pointee {
              n := Follow(tid, name, pointee, g, n, base);
            }
          case ContainerOf(name, item) =>
            n := Follow(tid, name + "/[i]", item, g, n, base);
          case Plain(_) =>
        }
      }
    }

    /** The walk's loop over all registered types, taking the strict descendants of `tid`. */
    method GatherDescendants(tid: TypeId, ghost g: Graph, ghost m: nat, ghost base: seq<Entry>) returns (ghost n: nat)
      requires Valid() && IsTypeGraph(g, db, aggregates) && tid < |g| && tid !in alreadyProcessed
      requires m == DescendantCount(db, tid, 0) <= |g[tid]|
      requires output == base + FoundThrough(g, tid, currentPath, alreadyProcessed, m)
      modifies this`output, this`currentPath, this`alreadyProcessed
      ensures currentPath == old(currentPath) && alreadyProcessed == old(alreadyProcessed)
      ensures n == DescendantCount(db, tid, |db.types|) <= |g[tid]|
      ensures output == base + FoundThrough(g, tid, currentPath, alreadyProcessed, n)
      decreases Unseen(|g|, alreadyProcessed), 3
    {
      n := m;
      for child := 0 to |db.types|
        invariant currentPath == old(currentPath) && alreadyProcessed == old(alreadyProcessed)
        invariant n == DescendantCount(db, tid, child) <= |g[tid]|
        invariant output == base + FoundThrough(g, tid, currentPath, alreadyProcessed, n)
      {
        DescendantStep(g, db, aggregates, tid, child);
        if db.IsChildOf(child, tid) {
          n := Follow(tid, "$" + db.types[child].name, child, g, n, base);
        }
      }
    }

    /** The walk's loop over the aggregation pairs that `tid` takes part in. */
    method GatherAggregates(tid: TypeId, ghost g: Graph, ghost m: nat, ghost base: seq<Entry>) returns (ghost n: nat)
      requires Valid() && IsTypeGraph(g, db, aggregates) && tid < |g| && tid !in alreadyProcessed
      requires m == AggregateCount(db, aggregates, tid, 0) <= |g[tid]|
      requires output == base + FoundThrough(g, tid, currentPath, alreadyProcessed, m)
      modifies this`output, this`currentPath, this`alreadyProcessed
      ensures currentPath == old(currentPath) && alreadyProcessed == old(alreadyProcessed)
      ensures n == AggregateCount(db, aggregates, tid, |aggregates|) <= |g[tid]|
      ensures output == base + FoundThrough(g, tid, currentPath, alreadyProcessed, n)
      decreases Unseen(|g|, alreadyProcessed), 3
    {
      n := m;
      for i := 0 to |aggregates|
        invariant currentPath == old(currentPath) && alreadyProcessed == old(alreadyProcessed)
        invariant n == AggregateCount(db, aggregates, tid, i) <= |g[tid]|
        invariant output == base + FoundThrough(g, tid, currentPath, alreadyProcessed, n)
      {
        n := GatherAggregate(tid, i, g, n, base);
      }
    }

    /** Follows one aggregation pair, if `tid` takes part in it. */
    method GatherAggregate(tid: TypeId, i: nat, ghost g: Graph, ghost n: nat, ghost base: seq<Entry>)
      returns (ghost next: nat)
      requires Valid() && IsTypeGraph(g, db, aggregates) && tid < |g| && tid !in alreadyProcessed
      requires i < |aggregates| && n == AggregateCount(db, aggregates, tid, i) <= |g[tid]|
      requires output == base + FoundThrough(g, tid, currentPath, alreadyProcessed, n)
      modifies this`output, this`currentPath, this`alreadyProcessed
      ensures currentPath == old(currentPath) && alreadyProcessed == old(alreadyProcessed)
      ensures next == AggregateCount(db, aggregates, tid, i + 1) <= |g[tid]|
      ensures output == base + FoundThrough(g, tid, currentPath, alreadyProcessed, next)
      decreases Unseen(|g|, alreadyProcessed), 2
    {
      AggregateStep(g, db, aggregates, tid, i);
      next := n;
      var item := aggregates[i];
      if item.0 == tid || item.1 == tid {
        var other := item.1;
        if item.1 == tid {
          other := item.0;
        }
        assert AggregateEdge(db, tid, item) == [Edge("$" + db.types[other].name, other)];
        next := Follow(tid, "$" + db.types[other].name, other, g, n, base);
      }
    }

    /** Pushes edge `n` of `tid`, walks on from its target, and pops it again. */
    method Follow(tid: TypeId, name: string, target: TypeId, ghost g: Graph, ghost n: nat, ghost base: seq<Entry>)
      returns (ghost next: nat)
      requires Valid() && IsTypeGraph(g, db, aggregates) && tid < |g| && tid !in alreadyProcessed
      requires n < |g[tid]| && g[tid][n] == Edge(name, target)
      requires output == base + FoundThrough(g, tid, currentPath, alreadyProcessed, n)
      modifies this`output, this`currentPath, this`alreadyProcessed
      ensures currentPath == old(currentPath) && alreadyProcessed == old(alreadyProcessed)
      ensures next == n + 1
      ensures output == base + FoundThrough(g, tid, currentPath, alreadyProcessed, next)
      decreases Unseen(|g|, alreadyProcessed), 1
    {
      next := n + 1;
      UnseenShrinks(|g|, tid, alreadyProcessed);
      currentPath := currentPath + [name];
      alreadyProcessed := alreadyProcessed + [tid];
      DoGather(target, g);
      alreadyProcessed := alreadyProcessed[..|alreadyProcessed| - 1];
      currentPath := currentPath[..|currentPath| - 1];
    }

    /**
     Gathering from `tid` records each simple path from it exactly once, in preorder, and nothing
     else.  The entries are not made unique afterwards: the helper meant for that works on a copy.
     */
    method Gather(tid: TypeId, ghost g: Graph) returns (ghost ps: seq<Path>)
      requires Ready() && tid < |db.types| && IsTypeGraph(g, db, aggregates)
      modifies this`output, this`currentPath, this`alreadyProcessed
      ensures Ready()
      ensures Enumerates(ps, g, tid, [])
      ensures output == old(output) + Entries(g, tid, [], ps)
      ensures output == old(output) + Found(g, tid, [], [])
    {
      DoGather(tid, g);
      ps := PathsFrom(g, tid, []);
      EnumeratesPaths(g, tid, []);
      FoundAreEntries(g, tid, [], []);
    }
  }
}
