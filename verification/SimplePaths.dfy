/**
 Simple paths of a finite labelled multigraph, which may have cycles, parallel edges and
 self loops.  A path is named by the edges it takes: `p[i]` is the position, in the adjacency
 list of the node reached after `i` edges, of the next edge.
 */
module SimplePaths {

  type Node = nat

  datatype Edge = Edge(name: string, target: Node)

  /** `g[t]` lists the outgoing edges of node `t`, in the order a walk tries them. */
  type Graph = seq<seq<Edge>>

  type Path = seq<nat>

  ghost predicate ValidGraph(g: Graph) {
    forall t, k :: 0 <= t < |g| && 0 <= k < |g[t]| ==> g[t][k].target < |g|
  }

  /******* What a simple path is *******/

  predicate IsWalk(g: Graph, t: Node, p: Path)
    decreases |p|
  {
    && t < |g|
    && (p == [] || (p[0] < |g[t]| && IsWalk(g, g[t][p[0]].target, p[1..])))
  }

  /** The nodes on the walk `p` from `t`, both ends included. */
  function Visited(g: Graph, t: Node, p: Path): (nodes: seq<Node>)
    requires IsWalk(g, t, p)
    ensures |nodes| == |p| + 1 && nodes[0] == t
    decreases |p|
  {
    [t] + if p == [] then [] else Visited(g, g[t][p[0]].target, p[1..])
  }

  /** The names of the edges of the walk `p`, as far as it is one. */
  function Labels(g: Graph, t: Node, p: Path): seq<string>
    decreases |p|
  {
    if p == [] || t >= |g| || p[0] >= |g[t]| then []
    else [g[t][p[0]].name] + Labels(g, g[t][p[0]].target, p[1..])
  }

  /** The node where the walk `p` ends, as far as it is one. */
  function Destination(g: Graph, t: Node, p: Path): Node
    decreases |p|
  {
    if p == [] || t >= |g| || p[0] >= |g[t]| then t
    else Destination(g, g[t][p[0]].target, p[1..])
  }

  ghost predicate NoRepeats<T>(s: seq<T>) {
    forall i, j :: 0 <= i < j < |s| ==> s[i] != s[j]
  }

  ghost predicate Avoids<T>(s: seq<T>, seen: seq<T>) {
    forall i :: 0 <= i < |s| ==> s[i] !in seen
  }

  /** A walk from `t` all of whose nodes are distinct and outside `seen`. */
  ghost predicate IsSimplePath(g: Graph, t: Node, seen: seq<Node>, p: Path) {
    IsWalk(g, t, p) && NoRepeats(Visited(g, t, p)) && Avoids(Visited(g, t, p), seen)
  }

  /******* The order in which paths are met *******/

  /** Lexicographic order, a proper prefix first: the preorder of a depth-first walk. */
  predicate Before(p: Path, q: Path) {
    && q != []
    && (p == [] || p[0] < q[0] || (p[0] == q[0] && Before(p[1..], q[1..])))
  }

  ghost predicate Increasing(ps: seq<Path>) {
    forall i, j :: 0 <= i < j < |ps| ==> Before(ps[i], ps[j])
  }

  /** `ps` lists every simple path from `t` that avoids `seen`, once, in preorder, and nothing else. */
  ghost predicate Enumerates(ps: seq<Path>, g: Graph, t: Node, seen: seq<Node>) {
    && Increasing(ps)
    && (forall p :: p in ps <==> IsSimplePath(g, t, seen, p))
  }

  /******* The enumeration *******/

  function Prepend(k: nat, ps: seq<Path>): (r: seq<Path>)
    ensures |r| == |ps| && forall i :: 0 <= i < |ps| ==> r[i] == [k] + ps[i]
  {
    seq(|ps|, i requires 0 <= i < |ps| => [k] + ps[i])
  }

  /** The number of nodes below `n` that are not in `seen`: the measure of the walk. */
  ghost function Unseen(n: nat, seen: seq<Node>): nat {
    if n == 0 then 0 else Unseen(n - 1, seen) + if n - 1 in seen then 0 else 1
  }

  lemma {:induction false} UnseenShrinks(n: nat, t: Node, seen: seq<Node>)
    ensures Unseen(n, seen + [t]) == Unseen(n, seen) - if t < n && t !in seen then 1 else 0
  {
    if n > 0 {
      UnseenShrinks(n - 1, t, seen);
    }
  }

  /** The paths found by a depth-first walk from `t` that stops at nodes of `seen`. */
  ghost function PathsFrom(g: Graph, t: Node, seen: seq<Node>): seq<Path>
    requires ValidGraph(g) && t < |g|
    decreases Unseen(|g|, seen), |g[t]| + 1
  {
    if t in seen then [] else [[]] + Branches(g, t, seen, |g[t]|)
  }

  /** The part of that walk that leaves `t` through its first `n` edges. */
  ghost function Branches(g: Graph, t: Node, seen: seq<Node>, n: nat): seq<Path>
    requires ValidGraph(g) && t < |g| && t !in seen && n <= |g[t]|
    decreases Unseen(|g|, seen), n
  {
    if n == 0 then []
    else
      UnseenShrinks(|g|, t, seen);
      Branches(g, t, seen, n - 1) + Prepend(n - 1, PathsFrom(g, g[t][n - 1].target, seen + [t]))
  }

  /******* The walk enumerates the simple paths *******/

  lemma SimpleBehind(t: Node, rest: seq<Node>, seen: seq<Node>)
    ensures NoRepeats([t] + rest) && Avoids([t] + rest, seen)
       <==> t !in seen && NoRepeats(rest) && Avoids(rest, seen + [t])
  {
    var here := [t] + rest;
    assert forall i :: 0 <= i < |rest| ==> rest[i] == here[i + 1];
    assert forall i :: 0 < i < |here| ==> here[i] == rest[i - 1];
    assert here[0] == t;
  }

  /** Splitting a simple path at its first edge. */
  lemma FirstEdge(g: Graph, t: Node, seen: seq<Node>, p: Path)
    requires ValidGraph(g) && t < |g| && p != []
    ensures IsSimplePath(g, t, seen, p)
       <==> t !in seen && p[0] < |g[t]| && IsSimplePath(g, g[t][p[0]].target, seen + [t], p[1..])
  {
    if p[0] < |g[t]| && IsWalk(g, g[t][p[0]].target, p[1..]) {
      var rest := Visited(g, g[t][p[0]].target, p[1..]);
      assert Visited(g, t, p) == [t] + rest;
      SimpleBehind(t, rest, seen);
    }
  }

  lemma {:induction false} EnumeratesPaths(g: Graph, t: Node, seen: seq<Node>)
    requires ValidGraph(g) && t < |g|
    ensures Enumerates(PathsFrom(g, t, seen), g, t, seen)
    decreases Unseen(|g|, seen), |g[t]| + 1
  {
    var ps := PathsFrom(g, t, seen);
    if t in seen {
      forall p ensures !IsSimplePath(g, t, seen, p) {
        assert IsWalk(g, t, p) ==> Visited(g, t, p)[0] in seen;
      }
    } else {
      EnumeratesBranches(g, t, seen, |g[t]|);
      forall p ensures p in ps <==> IsSimplePath(g, t, seen, p) {
        if p == [] {
          assert ps[0] == [];
          assert Visited(g, t, []) == [t];
        } else {
          FirstEdge(g, t, seen, p);
        }
      }
    }
  }

  lemma {:induction false} EnumeratesBranches(g: Graph, t: Node, seen: seq<Node>, n: nat)
    requires ValidGraph(g) && t < |g| && t !in seen && n <= |g[t]|
    ensures Increasing(Branches(g, t, seen, n))
    ensures forall p :: p in Branches(g, t, seen, n) <==> p != [] && p[0] < n && IsSimplePath(g, t, seen, p)
    decreases Unseen(|g|, seen), n
  {
    if n > 0 {
      var k, target := n - 1, g[t][n - 1].target;
      var front, tails := Branches(g, t, seen, k), PathsFrom(g, target, seen + [t]);
      UnseenShrinks(|g|, t, seen);
      EnumeratesBranches(g, t, seen, k);
      EnumeratesPaths(g, target, seen + [t]);
      EnumeratesBranch(g, t, seen, k, tails);
      IncreasingConcat(front, Prepend(k, tails));
    }
  }

  /** The part of the walk behind one edge. */
  lemma EnumeratesBranch(g: Graph, t: Node, seen: seq<Node>, k: nat, tails: seq<Path>)
    requires ValidGraph(g) && t < |g| && t !in seen && k < |g[t]|
    requires Enumerates(tails, g, g[t][k].target, seen + [t])
    ensures Increasing(Prepend(k, tails))
    ensures forall p :: p in Prepend(k, tails) <==> p != [] && p[0] == k && IsSimplePath(g, t, seen, p)
  {
    var back := Prepend(k, tails);
    forall p ensures p in back <==> p != [] && p[0] == k && IsSimplePath(g, t, seen, p) {
      if p != [] && p[0] == k && IsSimplePath(g, t, seen, p) {
        FirstEdge(g, t, seen, p);
        var i :| 0 <= i < |tails| && tails[i] == p[1..];
        assert back[i] == p;
      }
      if p in back {
        var i :| 0 <= i < |back| && back[i] == p;
        assert p[1..] == tails[i];
        FirstEdge(g, t, seen, p);
      }
    }
    forall i, j | 0 <= i < j < |back| ensures Before(back[i], back[j]) {
      assert back[i][1..] == tails[i] && back[j][1..] == tails[j];
    }
  }

  lemma IncreasingConcat(ps: seq<Path>, qs: seq<Path>)
    requires Increasing(ps) && Increasing(qs)
    requires forall p, q :: p in ps && q in qs ==> Before(p, q)
    ensures Increasing(ps + qs)
  {
  }

  /******* The enumeration is determined by what it enumerates *******/

  lemma {:induction false} BeforeIsStrict(p: Path, q: Path)
    requires Before(p, q)
    ensures p != q && !Before(q, p)
    decreases |p|
  {
    if p != [] && p[0] == q[0] {
      BeforeIsStrict(p[1..], q[1..]);
    }
  }

  /** Two preorder enumerations of the same paths are the same list: order and multiplicity are fixed. */
  lemma {:induction false} EnumerationIsUnique(ps: seq<Path>, qs: seq<Path>)
    requires Increasing(ps) && Increasing(qs)
    requires forall p :: p in ps <==> p in qs
    ensures ps == qs
    decreases |ps|
  {
    assert qs != [] ==> qs[0] in qs;
    if ps != [] {
      assert ps[0] in ps && qs[0] in qs;
      var i :| 0 <= i < |ps| && ps[i] == qs[0];
      var j :| 0 <= j < |qs| && qs[j] == ps[0];
      assert i > 0 ==> Before(ps[0], qs[0]);
      assert j > 0 ==> Before(qs[0], ps[0]);
      if Before(ps[0], qs[0]) {
        BeforeIsStrict(ps[0], qs[0]);
      }
      assert ps[0] == qs[0];
      TailMembers(ps);
      TailMembers(qs);
      EnumerationIsUnique(ps[1..], qs[1..]);
    }
  }

  lemma TailMembers(ps: seq<Path>)
    requires Increasing(ps) && ps != []
    ensures forall p :: p in ps[1..] <==> p in ps && p != ps[0]
  {
    forall p | p in ps[1..] ensures p != ps[0] {
      var i :| 0 <= i < |ps[1..]| && ps[1..][i] == p;
      BeforeIsStrict(ps[0], ps[i + 1]);
    }
    forall p | p in ps && p != ps[0] ensures p in ps[1..] {
      var i :| 0 <= i < |ps| && ps[i] == p;
      assert ps[1..][i - 1] == p;
    }
  }
}
