/**
 Gathered entries are not made unique: the helper meant for it works on a copy of the list.  Exactly
 when an entry is recorded twice, and why it happens with the aggregations the program registers.
 */
module RepeatedEntries {
  import opened SimplePaths
  import opened Introspection
  import opened Forks

  /******* What a rendered path says *******/

  const ITEMS := "[i]"

  /** A name as attributes and types have it. */
  predicate PlainName(s: string) {
    '/' !in s && s != ITEMS
  }

  /** The label of an edge: a plain name, or one with the suffix of a container. */
  ghost predicate CleanLabel(s: string) {
    PlainName(s) || exists base :: PlainName(base) && s == base + "/" + ITEMS
  }

  ghost predicate CleanLabels(labels: seq<string>) {
    forall i :: 0 <= i < |labels| ==> CleanLabel(labels[i])
  }

  lemma LastSlash(a: string, b: string, c: string, d: string)
    requires a + "/" + b == c + "/" + d && '/' !in b && '/' !in d
    ensures a == c && b == d
  {
    var s, t := a + "/" + b, c + "/" + d;
    assert s[|a|] == '/' && t[|c|] == '/';
    assert a == s[..|a|] && c == t[..|c|];
    assert b == s[|a| + 1..] && d == t[|c| + 1..];
  }

  /** The last label and what precedes it can be told from a rendered path. */
  lemma LastLabel(a: string, b: string, c: string, d: string)
    requires CleanLabel(b) && CleanLabel(d) && a + "/" + b == c + "/" + d
    ensures a == c && b == d
  {
    if PlainName(b) && PlainName(d) {
      LastSlash(a, b, c, d);
    } else if PlainName(b) {
      var base :| PlainName(base) && d == base + "/" + ITEMS;
      assert c + "/" + d == (c + "/" + base) + "/" + ITEMS;
      LastSlash(a, b, c + "/" + base, ITEMS);
    } else if PlainName(d) {
      var base :| PlainName(base) && b == base + "/" + ITEMS;
      assert a + "/" + b == (a + "/" + base) + "/" + ITEMS;
      LastSlash(a + "/" + base, ITEMS, c, d);
    } else {
      var base :| PlainName(base) && b == base + "/" + ITEMS;
      var base' :| PlainName(base') && d == base' + "/" + ITEMS;
      assert a + "/" + b == (a + "/" + base) + "/" + ITEMS;
      assert c + "/" + d == (c + "/" + base') + "/" + ITEMS;
      LastSlash(a + "/" + base, ITEMS, c + "/" + base', ITEMS);
      LastSlash(a, base, c, base');
    }
  }

  /** Every label is preceded by a slash, and nothing else is between them. */
  lemma {:induction false} RenderJoins(p: seq<string>, q: seq<string>, l: string)
    ensures Render(p + q) == Render(p) + Render(q) && Render([l]) == "/" + l
  {
    assert [l][..0] == [];
    if q == [] {
      assert p + q == p;
    } else {
      var init, last := q[..|q| - 1], q[|q| - 1];
      RenderJoins(p, init, l);
      assert (p + q)[..|p + q| - 1] == p + init;
      assert Render(p + q) == Render(p) + Render(init) + "/" + last;
    }
  }

  /** Different labels are rendered differently. */
  lemma {:induction false} RenderIsInjective(p: seq<string>, q: seq<string>)
    requires CleanLabels(p) && CleanLabels(q) && Render(p) == Render(q)
    ensures p == q
  {
    if p != [] && q != [] {
      LastLabel(Render(p[..|p| - 1]), p[|p| - 1], Render(q[..|q| - 1]), q[|q| - 1]);
      RenderIsInjective(p[..|p| - 1], q[..|q| - 1]);
      assert p == p[..|p| - 1] + [p[|p| - 1]] && q == q[..|q| - 1] + [q[|q| - 1]];
    }
  }

  /******* When entries repeat, by the graph *******/

  ghost predicate CleanGraph(g: Graph) {
    forall t, k :: 0 <= t < |g| && 0 <= k < |g[t]| ==> CleanLabel(g[t][k].name)
  }

  lemma {:induction false} LabelsAreClean(g: Graph, t: Node, p: Path)
    requires CleanGraph(g)
    ensures CleanLabels(Labels(g, t, p))
    decreases |p|
  {
    if p != [] && t < |g| && p[0] < |g[t]| {
      LabelsAreClean(g, g[t][p[0]].target, p[1..]);
    }
  }

  /** Somewhere on a simple path from `t` two equal edges lead off it. */
  ghost predicate HasFork(g: Graph, t: Node) {
    exists r, m: nat, n: nat :: Fork(g, t, [], r, m, n)
  }

  lemma ForksRepeat(g: Graph, t: TypeId)
    requires ValidGraph(g) && t < |g| && HasFork(g, t)
    ensures !NoRepeats(Found(g, t, [], []))
  {
    var r, m: nat, n: nat :| Fork(g, t, [], r, m, n);
    ForkMakesTwo(g, t, [], r, m, n);
    SharedEntry(g, t, r + [m], r + [n]);
  }

  /** Two simple paths with the same entry. */
  lemma SharedEntry(g: Graph, t: TypeId, p: Path, q: Path)
    requires ValidGraph(g) && t < |g| && p != q
    requires IsSimplePath(g, t, [], p) && IsSimplePath(g, t, [], q)
    requires EntryOf(g, t, [], p) == EntryOf(g, t, [], q)
    ensures !NoRepeats(Found(g, t, [], []))
  {
    var ps := PathsFrom(g, t, []);
    EnumeratesPaths(g, t, []);
    FoundAreEntries(g, t, [], []);
    var i :| 0 <= i < |ps| && ps[i] == p;
    var j :| 0 <= j < |ps| && ps[j] == q;
    var es := Entries(g, t, [], ps);
    assert es[i] == es[j] && (i < j || j < i);
  }

  /** No entry is recorded twice exactly if no two equal edges lead off a simple path. */
  lemma EntriesRepeatAtForks(g: Graph, t: TypeId)
    requires ValidGraph(g) && t < |g| && NamesLead(g) && CleanGraph(g)
    ensures NoRepeats(Found(g, t, [], [])) <==> !HasFork(g, t)
  {
    if HasFork(g, t) {
      ForksRepeat(g, t);
    }
    if !NoRepeats(Found(g, t, [], [])) {
      var p, q := TwoPaths(g, t);
      LabelsAreClean(g, t, p);
      LabelsAreClean(g, t, q);
      assert [] + Labels(g, t, p) == Labels(g, t, p) && [] + Labels(g, t, q) == Labels(g, t, q);
      RenderIsInjective(Labels(g, t, p), Labels(g, t, q));
      var r, m, n := PathsPart(g, t, [], p, q);
    }
  }

  lemma TwoPaths(g: Graph, t: TypeId) returns (p: Path, q: Path)
    requires ValidGraph(g) && t < |g| && !NoRepeats(Found(g, t, [], []))
    ensures p != q && IsSimplePath(g, t, [], p) && IsSimplePath(g, t, [], q)
    ensures EntryOf(g, t, [], p) == EntryOf(g, t, [], q)
  {
    var ps, es := PathsFrom(g, t, []), Found(g, t, [], []);
    EnumeratesPaths(g, t, []);
    FoundAreEntries(g, t, [], []);
    var i, j :| 0 <= i < j < |es| && es[i] == es[j];
    p, q := ps[i], ps[j];
    BeforeIsStrict(p, q);
    assert p in ps && q in ps;
  }

  /******* When entries repeat, by the registered types *******/

  /** As the type system has it: names of types, and of the attributes of a type, are plain and distinct. */
  ghost predicate WellNamed(db: TypeDatabase) {
    && (forall t :: 0 <= t < |db.types| ==> PlainName(db.types[t].name))
    && (forall t, u :: 0 <= t < u < |db.types| ==> db.types[t].name != db.types[u].name)
    && (forall t :: 0 <= t < |db.types| ==> WellNamedAttributes(db.types[t].attributes))
  }

  ghost predicate WellNamedAttributes(attributes: seq<Attribute>) {
    && (forall k :: 0 <= k < |attributes| ==>
          PlainName(attributes[k].name) && (attributes[k].name == "" || attributes[k].name[0] != '$'))
    && (forall k, l :: 0 <= k < l < |attributes| ==> attributes[k].name != attributes[l].name)
  }

  predicate Joins(pair: (TypeId, TypeId), a: TypeId, b: TypeId) {
    pair == (a, b) || pair == (b, a)
  }

  /** Aggregated twice, in whichever order each time, or both a descendant and aggregated. */
  ghost predicate DoublyLinked(db: TypeDatabase, aggregates: Aggregates, a: TypeId, b: TypeId) {
    || (exists i, j :: 0 <= i < j < |aggregates| && Joins(aggregates[i], a, b) && Joins(aggregates[j], a, b))
    || (db.IsChildOf(b, a) && exists i :: 0 <= i < |aggregates| && Joins(aggregates[i], a, b))
  }

  ghost predicate TwoEdges(g: Graph, a: TypeId, b: TypeId)
    requires a < |g|
  {
    exists m, n :: 0 <= m < n < |g[a]| && g[a][m] == g[a][n] && g[a][n].target == b
  }

  /** Which attribute an edge comes from. */
  lemma {:induction false} AttributeSource(db: TypeDatabase, attributes: seq<Attribute>, n: nat, k: nat)
      returns (i: nat)
    requires n <= |attributes| && k < |AttributeEdges(db, attributes, n)|
    ensures i < n && |AttributeEdges(db, attributes, i)| == k
    ensures AttributeEdge(db, attributes[i]) == [AttributeEdges(db, attributes, n)[k]]
  {
    if k < |AttributeEdges(db, attributes, n - 1)| {
      i := AttributeSource(db, attributes, n - 1, k);
    } else {
      i := n - 1;
    }
  }

  lemma {:induction false} DescendantSource(db: TypeDatabase, t: TypeId, n: nat, k: nat) returns (i: nat)
    requires n <= |db.types| && k < |DescendantEdges(db, t, n)|
    ensures i < n && |DescendantEdges(db, t, i)| == k
    ensures DescendantEdge(db, t, i) == [DescendantEdges(db, t, n)[k]]
  {
    if k < |DescendantEdges(db, t, n - 1)| {
      i := DescendantSource(db, t, n - 1, k);
    } else {
      i := n - 1;
    }
  }

  lemma {:induction false} AggregateSource(
      db: TypeDatabase, aggregates: Aggregates, t: TypeId, n: nat, k: nat) returns (i: nat)
    requires KnownAggregates(db, aggregates) && n <= |aggregates| && k < |AggregateEdges(db, aggregates, t, n)|
    ensures i < n && |AggregateEdges(db, aggregates, t, i)| == k
    ensures AggregateEdge(db, t, aggregates[i]) == [AggregateEdges(db, aggregates, t, n)[k]]
  {
    if k < |AggregateEdges(db, aggregates, t, n - 1)| {
      i := AggregateSource(db, aggregates, t, n - 1, k);
    } else {
      i := n - 1;
    }
  }

  datatype Source = FromAttribute(attribute: nat) | FromDescent(child: TypeId) | FromAggregation(pair: nat)

  /** The edge comes from there, and is at the place that this gives it. */
  ghost predicate ComesFrom(db: TypeDatabase, aggregates: Aggregates, t: TypeId, n: nat, e: Edge, s: Source)
    requires t < |db.types| && KnownAggregates(db, aggregates)
  {
    match s
    case FromAttribute(i) =>
      i < |db.types[t].attributes| && n == AttributeCount(db, t, i)
      && AttributeEdge(db, db.types[t].attributes[i]) == [e]
    case FromDescent(child) =>
      child < |db.types| && n == DescendantCount(db, t, child) && DescendantEdge(db, t, child) == [e]
    case FromAggregation(i) =>
      i < |aggregates| && n == AggregateCount(db, aggregates, t, i) && AggregateEdge(db, t, aggregates[i]) == [e]
  }

  lemma EdgeSource(g: Graph, db: TypeDatabase, aggregates: Aggregates, t: TypeId, n: nat) returns (s: Source)
    requires IsTypeGraph(g, db, aggregates) && t < |g| && n < |g[t]|
    ensures ComesFrom(db, aggregates, t, n, g[t][n], s)
  {
    var attributes := db.types[t].attributes;
    var a := AttributeEdges(db, attributes, |attributes|);
    var d := DescendantEdges(db, t, |db.types|);
    assert g[t] == OutEdges(db, aggregates, t);
    if n < |a| {
      var i := AttributeSource(db, attributes, |attributes|, n);
      s := FromAttribute(i);
    } else if n < |a| + |d| {
      var i := DescendantSource(db, t, |db.types|, n - |a|);
      s := FromDescent(i);
    } else {
      var i := AggregateSource(db, aggregates, t, |aggregates|, n - |a| - |d|);
      s := FromAggregation(i);
    }
  }

  /** What the label and the target of an edge say about where it comes from. */
  lemma SourceSays(db: TypeDatabase, aggregates: Aggregates, t: TypeId, n: nat, e: Edge, s: Source)
    requires WellNamed(db) && t < |db.types| && db.Valid() && KnownAggregates(db, aggregates)
    requires ComesFrom(db, aggregates, t, n, e, s)
    ensures CleanLabel(e.name)
    ensures s.FromAttribute? ==> e.name == "" || e.name[0] != '$'
    ensures !s.FromAttribute? ==> e.target < |db.types| && e.name == "$" + db.types[e.target].name
    ensures s.FromDescent? ==> s.child == e.target && db.IsChildOf(e.target, t)
    ensures s.FromAggregation? ==> Joins(aggregates[s.pair], t, e.target)
  {
    match s
    case FromAttribute(i) =>
      var a := db.types[t].attributes[i];
      assert PlainName(a.name);
      if a.ContainerOf? {
        assert e.name == a.name + "/" + ITEMS;
      }
    case FromDescent(child) =>
      assert PlainName(db.types[child].name);
      assert e.name[0] == '$' && e.name[1..] == db.types[child].name;
    case FromAggregation(i) =>
      assert PlainName(db.types[e.target].name);
      assert e.name[0] == '$' && e.name[1..] == db.types[e.target].name;
  }

  /** Edges of the same label lead to the same type, and are either one edge or come from different sources. */
  lemma SameLabel(
      db: TypeDatabase, aggregates: Aggregates, t: TypeId, m: nat, n: nat, d: Edge, e: Edge, r: Source, s: Source)
    requires WellNamed(db) && t < |db.types| && db.Valid() && KnownAggregates(db, aggregates)
    requires ComesFrom(db, aggregates, t, m, d, r) && ComesFrom(db, aggregates, t, n, e, s)
    requires d.name == e.name
    ensures d == e
    ensures m == n || (r.FromDescent? && s.FromAggregation?) || (r.FromAggregation? && s.FromDescent?)
            || (r.FromAggregation? && s.FromAggregation? && r.pair != s.pair)
  {
    SourceSays(db, aggregates, t, m, d, r);
    SourceSays(db, aggregates, t, n, e, s);
    if r.FromAttribute? && s.FromAttribute? {
      SameAttribute(db, db.types[t].attributes, r.attribute, s.attribute, d, e);
    } else if !r.FromAttribute? && !s.FromAttribute? {
      assert d.name[1..] == db.types[d.target].name && e.name[1..] == db.types[e.target].name;
    }
  }

  lemma SameAttribute(db: TypeDatabase, attributes: seq<Attribute>, i: nat, j: nat, d: Edge, e: Edge)
    requires WellNamedAttributes(attributes) && i < |attributes| && j < |attributes|
    requires AttributeEdge(db, attributes[i]) == [d] && AttributeEdge(db, attributes[j]) == [e] && d.name == e.name
    ensures i == j
  {
    var a, b := attributes[i], attributes[j];
    assert a.ContainerOf? ==> d.name == a.name + "/" + ITEMS && d.name[|a.name|] == '/';
    assert b.ContainerOf? ==> e.name == b.name + "/" + ITEMS && e.name[|b.name|] == '/';
    if a.ContainerOf? && b.ContainerOf? {
      LastSlash(a.name, ITEMS, b.name, ITEMS);
    }
  }

  /** With such names labels are clean and lead to one type each. */
  lemma TypeGraphIsClean(g: Graph, db: TypeDatabase, aggregates: Aggregates)
    requires IsTypeGraph(g, db, aggregates) && WellNamed(db)
    ensures CleanGraph(g) && NamesLead(g)
  {
    forall t, k | 0 <= t < |g| && 0 <= k < |g[t]| ensures CleanLabel(g[t][k].name) {
      var s := EdgeSource(g, db, aggregates, t, k);
      SourceSays(db, aggregates, t, k, g[t][k], s);
    }
    forall t, m, n | 0 <= t < |g| && 0 <= m < |g[t]| && 0 <= n < |g[t]| && g[t][m].name == g[t][n].name
      ensures g[t][m].target == g[t][n].target
    {
      var r := EdgeSource(g, db, aggregates, t, m);
      var s := EdgeSource(g, db, aggregates, t, n);
      SameLabel(db, aggregates, t, m, n, g[t][m], g[t][n], r, s);
    }
  }

  lemma CountsGrow(db: TypeDatabase, aggregates: Aggregates, t: TypeId, i: nat, j: nat)
    requires KnownAggregates(db, aggregates) && t < |db.types| && i <= j <= |aggregates|
    ensures AggregateCount(db, aggregates, t, i) <= AggregateCount(db, aggregates, t, j)
  {
    AggregatePrefix(db, aggregates, t, i, j);
  }

  lemma DescentComesFirst(db: TypeDatabase, aggregates: Aggregates, t: TypeId, child: TypeId, i: nat)
    requires KnownAggregates(db, aggregates) && t < |db.types| && child < |db.types| && i <= |aggregates|
    requires db.IsChildOf(child, t)
    ensures DescendantCount(db, t, child) < AggregateCount(db, aggregates, t, i)
  {
    DescendantPrefix(db, t, child + 1, |db.types|);
  }

  lemma EqualEdgesAreLinks(g: Graph, db: TypeDatabase, aggregates: Aggregates, a: TypeId, m: nat, n: nat)
    requires IsTypeGraph(g, db, aggregates) && WellNamed(db) && a < |g|
    requires m < n < |g[a]| && g[a][m] == g[a][n]
    ensures DoublyLinked(db, aggregates, a, g[a][n].target)
  {
    var r := EdgeSource(g, db, aggregates, a, m);
    var s := EdgeSource(g, db, aggregates, a, n);
    SameLabel(db, aggregates, a, m, n, g[a][m], g[a][n], r, s);
    SourceSays(db, aggregates, a, m, g[a][m], r);
    SourceSays(db, aggregates, a, n, g[a][n], s);
  }

  lemma JoinedTwice(g: Graph, db: TypeDatabase, aggregates: Aggregates, a: TypeId, b: TypeId, i: nat, j: nat)
      returns (m: nat, n: nat)
    requires IsTypeGraph(g, db, aggregates) && a < |g| && a != b && i < j < |aggregates|
    requires Joins(aggregates[i], a, b) && Joins(aggregates[j], a, b)
    ensures m < n < |g[a]| && g[a][m] == g[a][n] && g[a][n].target == b
  {
    JoinLeadsOn(g, db, aggregates, i, a, b);
    JoinLeadsOn(g, db, aggregates, j, a, b);
    CountsGrow(db, aggregates, a, i + 1, j);
    m, n := AggregateCount(db, aggregates, a, i), AggregateCount(db, aggregates, a, j);
  }

  lemma JoinedDescendant(g: Graph, db: TypeDatabase, aggregates: Aggregates, a: TypeId, b: TypeId, i: nat)
      returns (m: nat, n: nat)
    requires IsTypeGraph(g, db, aggregates) && a < |g| && b < |g| && a != b && i < |aggregates|
    requires Joins(aggregates[i], a, b) && db.IsChildOf(b, a)
    ensures m < n < |g[a]| && g[a][m] == g[a][n] && g[a][n].target == b
  {
    JoinLeadsOn(g, db, aggregates, i, a, b);
    DescendantStep(g, db, aggregates, a, b);
    DescentComesFirst(db, aggregates, a, b, i);
    m, n := DescendantCount(db, a, b), AggregateCount(db, aggregates, a, i);
  }

  lemma LinksAreEqualEdges(g: Graph, db: TypeDatabase, aggregates: Aggregates, a: TypeId, b: TypeId)
      returns (m: nat, n: nat)
    requires IsTypeGraph(g, db, aggregates) && a < |g| && b < |g| && a != b
    requires DoublyLinked(db, aggregates, a, b)
    ensures m < n < |g[a]| && g[a][m] == g[a][n] && g[a][n].target == b
  {
    if i, j :| 0 <= i < j < |aggregates| && Joins(aggregates[i], a, b) && Joins(aggregates[j], a, b) {
      m, n := JoinedTwice(g, db, aggregates, a, b, i, j);
    } else {
      var i :| 0 <= i < |aggregates| && Joins(aggregates[i], a, b);
      m, n := JoinedDescendant(g, db, aggregates, a, b, i);
    }
  }

  /** Two equal edges between different types come from exactly these. */
  lemma EqualEdges(g: Graph, db: TypeDatabase, aggregates: Aggregates, a: TypeId, b: TypeId)
    requires IsTypeGraph(g, db, aggregates) && WellNamed(db) && a < |g| && b < |g| && a != b
    ensures TwoEdges(g, a, b) <==> DoublyLinked(db, aggregates, a, b)
  {
    if TwoEdges(g, a, b) {
      var m, n :| 0 <= m < n < |g[a]| && g[a][m] == g[a][n] && g[a][n].target == b;
      EqualEdgesAreLinks(g, db, aggregates, a, m, n);
    }
    if DoublyLinked(db, aggregates, a, b) {
      var m, n := LinksAreEqualEdges(g, db, aggregates, a, b);
    }
  }

  lemma JoinLeadsOn(g: Graph, db: TypeDatabase, aggregates: Aggregates, i: nat, a: TypeId, b: TypeId)
    requires IsTypeGraph(g, db, aggregates) && a < |g| && i < |aggregates| && a != b && Joins(aggregates[i], a, b)
    ensures b < |g|
    ensures AggregateCount(db, aggregates, a, i + 1) == AggregateCount(db, aggregates, a, i) + 1 <= |g[a]|
    ensures g[a][AggregateCount(db, aggregates, a, i)] == Edge("$" + db.types[b].name, b)
  {
    AggregateStep(g, db, aggregates, a, i);
  }

  /** A simple path from `root`, and a type off it that is linked to its end twice. */
  ghost predicate ReachesDoubleLink(g: Graph, db: TypeDatabase, aggregates: Aggregates, root: TypeId) {
    exists r, b: TypeId ::
      IsSimplePath(g, root, [], r) && b !in Visited(g, root, r) && b < |g|
      && DoublyLinked(db, aggregates, Destination(g, root, r), b)
  }

  /**
   A gathering records no entry twice exactly if no simple path from its root leads to a type that is
   linked twice to a type off the path.
   */
  lemma EntriesRepeatAtDoubleLinks(g: Graph, db: TypeDatabase, aggregates: Aggregates, root: TypeId)
    requires IsTypeGraph(g, db, aggregates) && WellNamed(db) && root < |g|
    ensures NoRepeats(Found(g, root, [], [])) <==> !ReachesDoubleLink(g, db, aggregates, root)
  {
    TypeGraphIsClean(g, db, aggregates);
    EntriesRepeatAtForks(g, root);
    if HasFork(g, root) {
      var r, m: nat, n: nat :| Fork(g, root, [], r, m, n);
      ForkIsDoubleLink(g, db, aggregates, root, r, m, n);
    }
    if ReachesDoubleLink(g, db, aggregates, root) {
      DoubleLinkIsFork(g, db, aggregates, root);
    }
  }

  lemma ForkIsDoubleLink(
      g: Graph, db: TypeDatabase, aggregates: Aggregates, root: TypeId, r: Path, m: nat, n: nat)
    requires IsTypeGraph(g, db, aggregates) && WellNamed(db) && root < |g| && Fork(g, root, [], r, m, n)
    ensures ReachesDoubleLink(g, db, aggregates, root)
  {
    EqualEdgesAreLinks(g, db, aggregates, Destination(g, root, r), m, n);
  }

  lemma DoubleLinkIsFork(g: Graph, db: TypeDatabase, aggregates: Aggregates, root: TypeId)
    requires IsTypeGraph(g, db, aggregates) && root < |g| && ReachesDoubleLink(g, db, aggregates, root)
    ensures HasFork(g, root)
  {
    var r, b: TypeId :| IsSimplePath(g, root, [], r) && b !in Visited(g, root, r) && b < |g|
                        && DoublyLinked(db, aggregates, Destination(g, root, r), b);
    EndIsVisited(g, root, r);
    var m, n := LinksAreEqualEdges(g, db, aggregates, Destination(g, root, r), b);
    assert Fork(g, root, [], r, m, n);
  }

  /** Repetition does not depend on how types are named. */
  lemma DoubleLinkRepeats(g: Graph, db: TypeDatabase, aggregates: Aggregates, root: TypeId)
    requires IsTypeGraph(g, db, aggregates) && root < |g| && ReachesDoubleLink(g, db, aggregates, root)
    ensures !NoRepeats(Found(g, root, [], []))
  {
    DoubleLinkIsFork(g, db, aggregates, root);
    ForksRepeat(g, root);
  }

  lemma {:induction false} EndIsVisited(g: Graph, t: Node, p: Path)
    requires IsWalk(g, t, p)
    ensures Destination(g, t, p) in Visited(g, t, p) && Destination(g, t, p) < |g|
    decreases |p|
  {
    if p != [] {
      EndIsVisited(g, g[t][p[0]].target, p[1..]);
    }
  }
}
