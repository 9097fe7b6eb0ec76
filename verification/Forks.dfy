/**
 When two simple paths spell the same labels.  In a graph where edges of the same name leave a node
 for the same target, such paths part at two equal edges.
 */
module Forks {
  import opened SimplePaths

  /** Edges of one node that have the same name lead to the same target. */
  ghost predicate NamesLead(g: Graph) {
    forall t, m, n :: 0 <= t < |g| && 0 <= m < |g[t]| && 0 <= n < |g[t]| && g[t][m].name == g[t][n].name ==>
      g[t][m].target == g[t][n].target
  }

  /** A simple path from `t` clear of `seen`, and two equal edges at its end that lead off it. */
  ghost predicate Fork(g: Graph, t: Node, seen: seq<Node>, r: Path, m: nat, n: nat) {
    && IsSimplePath(g, t, seen, r)
    && var u := Destination(g, t, r);
       u < |g| && m < n < |g[u]| && g[u][m] == g[u][n]
       && g[u][n].target !in Visited(g, t, r) && g[u][n].target !in seen
  }

  /** The path goes on over edge `n`. */
  ghost predicate LeadsOff(g: Graph, t: Node, seen: seq<Node>, r: Path, n: nat) {
    && IsSimplePath(g, t, seen, r)
    && var u := Destination(g, t, r);
       u < |g| && n < |g[u]| && g[u][n].target !in Visited(g, t, r) && g[u][n].target !in seen
  }

  /** Prepending an edge on either side. */
  lemma LeadsOffLater(g: Graph, t: Node, seen: seq<Node>, r: Path, n: nat)
    requires ValidGraph(g) && t < |g| && r != []
    ensures LeadsOff(g, t, seen, r, n)
       <==> t !in seen && r[0] < |g[t]| && LeadsOff(g, g[t][r[0]].target, seen + [t], r[1..], n)
  {
    FirstEdge(g, t, seen, r);
    if IsSimplePath(g, t, seen, r) {
      assert Visited(g, t, r) == [t] + Visited(g, g[t][r[0]].target, r[1..]);
    }
  }

  /** One edge more makes a simple path exactly if it leads off. */
  lemma {:induction false} OneMoreEdge(g: Graph, t: Node, seen: seq<Node>, r: Path, n: nat)
    requires ValidGraph(g) && t < |g| && LeadsOff(g, t, seen, r, n)
    ensures IsSimplePath(g, t, seen, r + [n])
    ensures Labels(g, t, r + [n]) == Labels(g, t, r) + [g[Destination(g, t, r)][n].name]
    ensures Destination(g, t, r + [n]) == g[Destination(g, t, r)][n].target
    decreases |r|
  {
    if r == [] {
      assert r + [n] == [n] && [n][1..] == [];
      var next := g[t][n].target;
      assert Visited(g, t, []) == [t];
      assert Visited(g, next, []) == [next];
      FirstEdge(g, t, seen, [n]);
    } else {
      var rn := r + [n];
      assert rn[1..] == r[1..] + [n] && rn[0] == r[0];
      LeadsOffLater(g, t, seen, r, n);
      OneMoreEdge(g, g[t][r[0]].target, seen + [t], r[1..], n);
      FirstEdge(g, t, seen, rn);
    }
  }

  lemma {:induction false} LabelsLength(g: Graph, t: Node, p: Path)
    requires IsWalk(g, t, p)
    ensures |Labels(g, t, p)| == |p|
    decreases |p|
  {
    if p != [] {
      LabelsLength(g, g[t][p[0]].target, p[1..]);
    }
  }

  /** Two different simple paths of the same labels part at a fork. */
  lemma {:induction false} PathsPart(g: Graph, t: Node, seen: seq<Node>, p: Path, q: Path)
      returns (r: Path, m: nat, n: nat)
    requires ValidGraph(g) && t < |g| && NamesLead(g)
    requires IsSimplePath(g, t, seen, p) && IsSimplePath(g, t, seen, q) && p != q
    requires Labels(g, t, p) == Labels(g, t, q)
    ensures Fork(g, t, seen, r, m, n)
    decreases |p|
  {
    LabelsLength(g, t, p);
    LabelsLength(g, t, q);
    FirstEdge(g, t, seen, p);
    FirstEdge(g, t, seen, q);
    assert Labels(g, t, p)[0] == g[t][p[0]].name && Labels(g, t, q)[0] == g[t][q[0]].name;
    var next := g[t][p[0]].target;
    if p[0] == q[0] {
      assert Labels(g, t, p)[1..] == Labels(g, next, p[1..]) && Labels(g, t, q)[1..] == Labels(g, next, q[1..]);
      var r';
      r', m, n := PathsPart(g, next, seen + [t], p[1..], q[1..]);
      r := [p[0]] + r';
      assert r[1..] == r';
      LeadsOffLater(g, t, seen, r, m);
      LeadsOffLater(g, t, seen, r, n);
    } else {
      r, m, n := [], if p[0] < q[0] then p[0] else q[0], if p[0] < q[0] then q[0] else p[0];
      assert Visited(g, t, []) == [t];
      assert Visited(g, next, p[1..])[0] == next;
    }
  }

  /** A fork makes two simple paths of the same labels. */
  lemma ForkMakesTwo(g: Graph, t: Node, seen: seq<Node>, r: Path, m: nat, n: nat)
    requires ValidGraph(g) && t < |g| && Fork(g, t, seen, r, m, n)
    ensures IsSimplePath(g, t, seen, r + [m]) && IsSimplePath(g, t, seen, r + [n]) && r + [m] != r + [n]
    ensures Labels(g, t, r + [m]) == Labels(g, t, r + [n])
    ensures Destination(g, t, r + [m]) == Destination(g, t, r + [n])
  {
    OneMoreEdge(g, t, seen, r, m);
    OneMoreEdge(g, t, seen, r, n);
    assert (r + [m])[|r|] != (r + [n])[|r|];
  }
}
