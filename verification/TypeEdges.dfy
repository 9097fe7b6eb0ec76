/** Which edges the registered types give, read off the types themselves, and where they lead a gathering. */
module TypeEdges {
  import opened SimplePaths
  import opened Introspection
  import opened RepeatedEntries
  import opened Lists

  /** The attribute leads to other types: it holds items, or points to something else than a plain Object. */
  predicate LeadsOn(db: TypeDatabase, a: Attribute) {
    a.ContainerOf? || (a.PointerTo? && a.pointee != db.objectType)
  }

  /** Label and target of the edge that an attribute gives. */
  predicate IsEdgeOf(a: Attribute, e: Edge) {
    && (a.PointerTo? ==> e.name == a.name && e.target == a.pointee)
    && (a.ContainerOf? ==> e.name == a.name + "/[i]" && e.target == a.item)
  }

  predicate IsEdgeTo(db: TypeDatabase, u: TypeId, e: Edge) {
    u < |db.types| && e.target == u && e.name == "$" + db.types[u].name
  }

  /******* The edges, part by part *******/

  /** The one edge of an attribute that leads on; none of any other. */
  predicate AttributePart(db: TypeDatabase, a: Attribute, es: seq<Edge>) {
    if LeadsOn(db, a) then |es| == 1 && IsEdgeOf(a, es[0]) else es == []
  }

  /** The one edge to a strict descendant; none to any other type. */
  predicate DescentPart(db: TypeDatabase, t: TypeId, u: TypeId, es: seq<Edge>) {
    if db.IsChildOf(u, t) then |es| == 1 && IsEdgeTo(db, u, es[0]) else es == []
  }

  /** The one edge to the other partner of a pair that the type takes part in. */
  predicate PairPart(db: TypeDatabase, t: TypeId, pair: (TypeId, TypeId), es: seq<Edge>) {
    if pair.0 == t || pair.1 == t then
      |es| == 1 && Joins(pair, t, es[0].target) && IsEdgeTo(db, es[0].target, es[0])
    else es == []
  }

  lemma {:induction false} AttributesJoined(db: TypeDatabase, attributes: seq<Attribute>, parts: seq<seq<Edge>>, n: nat)
    requires n <= |attributes| == |parts|
    requires forall i :: 0 <= i < |parts| ==> parts[i] == AttributeEdge(db, attributes[i])
    ensures AttributeEdges(db, attributes, n) == Joined(parts, n)
  {
    if n > 0 {
      AttributesJoined(db, attributes, parts, n - 1);
    }
  }

  lemma {:induction false} DescendantsJoined(db: TypeDatabase, t: TypeId, parts: seq<seq<Edge>>, n: nat)
    requires n <= |db.types| == |parts|
    requires forall i :: 0 <= i < |parts| ==> parts[i] == DescendantEdge(db, t, i)
    ensures DescendantEdges(db, t, n) == Joined(parts, n)
  {
    if n > 0 {
      DescendantsJoined(db, t, parts, n - 1);
    }
  }

  lemma {:induction false} AggregatesJoined(
      db: TypeDatabase, aggregates: Aggregates, t: TypeId, parts: seq<seq<Edge>>, n: nat)
    requires KnownAggregates(db, aggregates) && n <= |aggregates| == |parts|
    requires forall i :: 0 <= i < |parts| ==> parts[i] == AggregateEdge(db, t, aggregates[i])
    ensures AggregateEdges(db, aggregates, t, n) == Joined(parts, n)
  {
    if n > 0 {
      AggregatesJoined(db, aggregates, t, parts, n - 1);
    }
  }

  /**
   The edges of a type: one part for each of its attributes, then one for each registered type, then
   one for each aggregation pair, in their orders.
   */
  lemma EdgesInOrder(g: Graph, db: TypeDatabase, aggregates: Aggregates, t: TypeId)
      returns (a: seq<seq<Edge>>, d: seq<seq<Edge>>, p: seq<seq<Edge>>)
    requires IsTypeGraph(g, db, aggregates) && t < |g|
    ensures |a| == |db.types[t].attributes| && |d| == |db.types| && |p| == |aggregates|
    ensures forall i :: 0 <= i < |a| ==> AttributePart(db, db.types[t].attributes[i], a[i])
    ensures forall u :: 0 <= u < |d| ==> DescentPart(db, t, u, d[u])
    ensures forall i :: 0 <= i < |p| ==> PairPart(db, t, aggregates[i], p[i])
    ensures g[t] == Joined(a, |a|) + Joined(d, |d|) + Joined(p, |p|)
  {
    assert g[t] == OutEdges(db, aggregates, t);
    a := AttributesByPart(db, db.types[t].attributes);
    d := DescendantsByPart(db, t);
    p := AggregatesByPart(db, aggregates, t);
  }

  lemma AttributesByPart(db: TypeDatabase, attributes: seq<Attribute>) returns (parts: seq<seq<Edge>>)
    ensures |parts| == |attributes|
    ensures forall i :: 0 <= i < |parts| ==> AttributePart(db, attributes[i], parts[i])
    ensures AttributeEdges(db, attributes, |attributes|) == Joined(parts, |parts|)
  {
    parts := seq(|attributes|, i requires 0 <= i < |attributes| => AttributeEdge(db, attributes[i]));
    AttributesJoined(db, attributes, parts, |parts|);
  }

  lemma DescendantsByPart(db: TypeDatabase, t: TypeId) returns (parts: seq<seq<Edge>>)
    ensures |parts| == |db.types| && forall u :: 0 <= u < |parts| ==> DescentPart(db, t, u, parts[u])
    ensures DescendantEdges(db, t, |db.types|) == Joined(parts, |parts|)
  {
    parts := seq(|db.types|, u requires 0 <= u < |db.types| => DescendantEdge(db, t, u));
    DescendantsJoined(db, t, parts, |parts|);
  }

  lemma AggregatesByPart(db: TypeDatabase, aggregates: Aggregates, t: TypeId) returns (parts: seq<seq<Edge>>)
    requires KnownAggregates(db, aggregates)
    ensures |parts| == |aggregates| && forall i :: 0 <= i < |parts| ==> PairPart(db, t, aggregates[i], parts[i])
    ensures AggregateEdges(db, aggregates, t, |aggregates|) == Joined(parts, |parts|)
  {
    parts := seq(|aggregates|, i requires 0 <= i < |aggregates| => AggregateEdge(db, t, aggregates[i]));
    AggregatesJoined(db, aggregates, t, parts, |parts|);
  }

  /** How an edge of `t` comes about. */
  ghost predicate Gives(db: TypeDatabase, aggregates: Aggregates, t: TypeId, e: Edge)
    requires t < |db.types|
  {
    || (exists i :: 0 <= i < |db.types[t].attributes| && LeadsOn(db, db.types[t].attributes[i])
                    && IsEdgeOf(db.types[t].attributes[i], e))
    || (db.IsChildOf(e.target, t) && IsEdgeTo(db, e.target, e))
    || (exists i :: 0 <= i < |aggregates| && Joins(aggregates[i], t, e.target) && IsEdgeTo(db, e.target, e))
  }

  /** The edges of a type are exactly those that its attributes, its descendants and its aggregations give. */
  lemma EdgesAre(g: Graph, db: TypeDatabase, aggregates: Aggregates, t: TypeId, e: Edge)
    requires IsTypeGraph(g, db, aggregates) && t < |g|
    ensures e in g[t] <==> Gives(db, aggregates, t, e)
  {
    var a, d, p := EdgesInOrder(g, db, aggregates, t);
    JoinedMembers(a, |a|, e);
    JoinedMembers(d, |d|, e);
    JoinedMembers(p, |p|, e);
    AttributesGive(db, db.types[t].attributes, a, e);
    DescendantsGive(db, t, d, e);
    PairsGive(db, aggregates, t, p, e);
  }

  lemma AttributesGive(db: TypeDatabase, attributes: seq<Attribute>, parts: seq<seq<Edge>>, e: Edge)
    requires |parts| == |attributes|
    requires forall i :: 0 <= i < |parts| ==> AttributePart(db, attributes[i], parts[i])
    ensures (exists i :: 0 <= i < |parts| && e in parts[i])
       <==> exists i :: 0 <= i < |attributes| && LeadsOn(db, attributes[i]) && IsEdgeOf(attributes[i], e)
  {
    if i :| 0 <= i < |parts| && e in parts[i] {
      assert AttributePart(db, attributes[i], parts[i]);
      assert LeadsOn(db, attributes[i]) && IsEdgeOf(attributes[i], e);
    }
    if i :| 0 <= i < |attributes| && LeadsOn(db, attributes[i]) && IsEdgeOf(attributes[i], e) {
      assert AttributePart(db, attributes[i], parts[i]);
      assert parts[i][0] == e;
    }
  }

  lemma DescendantsGive(db: TypeDatabase, t: TypeId, parts: seq<seq<Edge>>, e: Edge)
    requires |parts| == |db.types| && forall u :: 0 <= u < |parts| ==> DescentPart(db, t, u, parts[u])
    ensures (exists u :: 0 <= u < |parts| && e in parts[u]) <==> db.IsChildOf(e.target, t) && IsEdgeTo(db, e.target, e)
  {
    if u :| 0 <= u < |parts| && e in parts[u] {
      assert DescentPart(db, t, u, parts[u]);
    }
    if db.IsChildOf(e.target, t) && IsEdgeTo(db, e.target, e) {
      assert DescentPart(db, t, e.target, parts[e.target]);
      assert parts[e.target][0] == e;
    }
  }

  lemma PairsGive(db: TypeDatabase, aggregates: Aggregates, t: TypeId, parts: seq<seq<Edge>>, e: Edge)
    requires |parts| == |aggregates|
    requires forall i :: 0 <= i < |parts| ==> PairPart(db, t, aggregates[i], parts[i])
    ensures (exists i :: 0 <= i < |parts| && e in parts[i])
       <==> exists i :: 0 <= i < |aggregates| && Joins(aggregates[i], t, e.target) && IsEdgeTo(db, e.target, e)
  {
    if i :| 0 <= i < |parts| && e in parts[i] {
      assert PairPart(db, t, aggregates[i], parts[i]);
      assert Joins(aggregates[i], t, e.target) && IsEdgeTo(db, e.target, e);
    }
    if i :| 0 <= i < |aggregates| && Joins(aggregates[i], t, e.target) && IsEdgeTo(db, e.target, e) {
      assert PairPart(db, t, aggregates[i], parts[i]);
      assert parts[i][0] == e;
    }
  }

  /******* Where the edges lead a gathering *******/

  /** Whatever a type gives an edge to is recorded below it, unless it is on the stack. */
  lemma EdgeIsFound(g: Graph, t: TypeId, prefix: seq<string>, seen: seq<TypeId>, e: Edge)
    requires ValidGraph(g) && t < |g| && t !in seen && e in g[t] && e.target !in seen && e.target != t
    ensures (e.target, Render(prefix) + "/" + e.name) in Found(g, t, prefix, seen)
  {
    var n :| 0 <= n < |g[t]| && g[t][n] == e;
    var ps := PathsFrom(g, t, seen);
    EnumeratesPaths(g, t, seen);
    FoundAreEntries(g, t, prefix, seen);
    OneEdgeIsSimple(g, t, seen, n);
    var i :| 0 <= i < |ps| && ps[i] == [n];
    assert Entries(g, t, prefix, ps)[i] == EntryOf(g, t, prefix, [n]);
    OneEdgeEntry(g, t, prefix, n);
  }

  lemma OneEdgeIsSimple(g: Graph, t: TypeId, seen: seq<TypeId>, n: nat)
    requires ValidGraph(g) && t < |g| && t !in seen && n < |g[t]| && g[t][n].target !in seen && g[t][n].target != t
    ensures IsSimplePath(g, t, seen, [n])
  {
    var next := g[t][n].target;
    assert [n][1..] == [];
    assert Visited(g, next, []) == [next];
    FirstEdge(g, t, seen, [n]);
  }

  lemma OneEdgeEntry(g: Graph, t: TypeId, prefix: seq<string>, n: nat)
    requires ValidGraph(g) && t < |g| && n < |g[t]|
    ensures EntryOf(g, t, prefix, [n]) == (g[t][n].target, Render(prefix) + "/" + g[t][n].name)
  {
    var longer := prefix + [g[t][n].name];
    assert [n] + [] == [n];
    EntryOfLonger(g, t, prefix, n, []);
    assert longer + Labels(g, g[t][n].target, []) == longer;
    assert longer[..|prefix|] == prefix;
  }

  /** So a gathering follows what an attribute points to, unless that is a plain Object or on the stack. */
  lemma PointeeIsFound(g: Graph, db: TypeDatabase, aggregates: Aggregates,
                       t: TypeId, i: nat, prefix: seq<string>, seen: seq<TypeId>)
    requires IsTypeGraph(g, db, aggregates) && t < |g| && t !in seen && i < |db.types[t].attributes|
    requires var a := db.types[t].attributes[i];
             a.PointerTo? && a.pointee != db.objectType && a.pointee !in seen && a.pointee != t
    ensures var a := db.types[t].attributes[i];
            (a.pointee, Render(prefix) + "/" + a.name) in Found(g, t, prefix, seen)
  {
    var a := db.types[t].attributes[i];
    var e := Edge(a.name, a.pointee);
    assert LeadsOn(db, a) && IsEdgeOf(a, e);
    EdgesAre(g, db, aggregates, t, e);
    EdgeIsFound(g, t, prefix, seen, e);
  }

  /** And the items of a container, below its name and "[i]". */
  lemma ItemIsFound(g: Graph, db: TypeDatabase, aggregates: Aggregates,
                    t: TypeId, i: nat, prefix: seq<string>, seen: seq<TypeId>)
    requires IsTypeGraph(g, db, aggregates) && t < |g| && t !in seen && i < |db.types[t].attributes|
    requires var a := db.types[t].attributes[i]; a.ContainerOf? && a.item !in seen && a.item != t
    ensures var a := db.types[t].attributes[i];
            (a.item, Render(prefix) + "/" + (a.name + "/[i]")) in Found(g, t, prefix, seen)
  {
    var a := db.types[t].attributes[i];
    var e := Edge(a.name + "/[i]", a.item);
    assert LeadsOn(db, a) && IsEdgeOf(a, e);
    EdgesAre(g, db, aggregates, t, e);
    EdgeIsFound(g, t, prefix, seen, e);
  }

  /** A type whose attributes all stay behind, without descendants and partners, is recorded alone. */
  lemma DeadEndIsAlone(g: Graph, db: TypeDatabase, aggregates: Aggregates,
                       t: TypeId, prefix: seq<string>, seen: seq<TypeId>)
    requires IsTypeGraph(g, db, aggregates) && t < |g| && t !in seen
    requires forall i :: 0 <= i < |db.types[t].attributes| ==> !LeadsOn(db, db.types[t].attributes[i])
    requires forall u: nat :: u < |g| ==> !db.IsChildOf(u, t)
    requires forall i :: 0 <= i < |aggregates| ==> aggregates[i].0 != t && aggregates[i].1 != t
    ensures Found(g, t, prefix, seen) == [(t, Render(prefix))]
  {
    if g[t] != [] {
      var e := SomeElement(g[t]);
      EdgesAre(g, db, aggregates, t, e);
    }
  }

  lemma SomeElement<T>(s: seq<T>) returns (x: T)
    requires s != []
    ensures x in s
  {
    x := s[0];
  }
}
