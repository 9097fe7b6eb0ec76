/** The program's own use of the gathering: its list of aggregations, and a gathering from every root. */
module TypicalAggregations {
  import opened SimplePaths
  import opened Introspection
  import opened RepeatedEntries
  import opened Lists

  const TYPICAL: seq<(string, string)> := [
    ("ns3::Node", "ns3::TcpSocketFactory"),
    ("ns3::Node", "ns3::UdpSocketFactory"),
    ("ns3::Node", "ns3::PacketSocketFactory"),
    ("ns3::Node", "ns3::MobilityModel"),
    ("ns3::Node", "ns3::Ipv4L3Protocol"),
    ("ns3::Node", "ns3::Ipv4NixVectorRouting"),
    ("ns3::Node", "ns3::Icmpv4L4Protocol"),
    ("ns3::Node", "ns3::ArpL3Protocol"),
    ("ns3::Node", "ns3::Icmpv4L4Protocol"),
    ("ns3::Node", "ns3::UdpL4Protocol"),
    ("ns3::Node", "ns3::Ipv6L3Protocol"),
    ("ns3::Node", "ns3::Icmpv6L4Protocol"),
    ("ns3::Node", "ns3::TcpL4Protocol"),
    ("ns3::Node", "ns3::RipNg"),
    ("ns3::Node", "ns3::GlobalRouter"),
    ("ns3::Node", "ns3::aodv::RoutingProtocol"),
    ("ns3::Node", "ns3::dsdv::RoutingProtocol"),
    ("ns3::Node", "ns3::dsr::DsrRouting"),
    ("ns3::Node", "ns3::olsr::RoutingProtocol"),
    ("ns3::Node", "ns3::EnergyHarvesterContainer"),
    ("ns3::Node", "ns3::EnergySourceContainer")
  ]

  /******* Recording and gathering *******/

  function AllKnown(db: TypeDatabase, names: seq<(string, string)>): (r: seq<Aggregates>)
    ensures |r| == |names| && forall i :: 0 <= i < |names| ==> r[i] == db.Known(names[i].0, names[i].1)
  {
    seq(|names|, i requires 0 <= i < |names| => db.Known(names[i].0, names[i].1))
  }

  /** What is aggregated when pairs of names are recorded. */
  function Recorded(db: TypeDatabase, names: seq<(string, string)>): (r: Aggregates)
    ensures KnownAggregates(db, r)
  {
    RecordedAreKnown(db, AllKnown(db, names), |names|);
    Joined(AllKnown(db, names), |names|)
  }

  lemma {:induction false} RecordedAreKnown(db: TypeDatabase, parts: seq<Aggregates>, n: nat)
    requires n <= |parts| && forall i :: 0 <= i < |parts| ==> KnownAggregates(db, parts[i])
    ensures KnownAggregates(db, Joined(parts, n))
  {
    if n > 0 {
      RecordedAreKnown(db, parts, n - 1);
    }
  }

  ghost predicate AreTypes(roots: seq<TypeId>, g: Graph) {
    forall i :: 0 <= i < |roots| ==> roots[i] < |g|
  }

  ghost function AllFound(g: Graph, roots: seq<TypeId>): (r: seq<seq<Entry>>)
    requires ValidGraph(g) && AreTypes(roots, g)
    ensures |r| == |roots| && forall i :: 0 <= i < |roots| ==> r[i] == Found(g, roots[i], [], [])
  {
    seq(|roots|, i requires 0 <= i < |roots| => Found(g, roots[i], [], []))
  }

  /** What gatherings from all roots leave in the output. */
  ghost function Gathered(g: Graph, roots: seq<TypeId>): seq<Entry>
    requires ValidGraph(g) && AreTypes(roots, g)
  {
    Joined(AllFound(g, roots), |roots|)
  }

  /** One gathering after the other, from every root, with the typical aggregations recorded. */
  method GetTypicalAggregations(db: TypeDatabase, roots: seq<TypeId>) returns (info: StaticInformation)
    requires db.Valid() && forall i :: 0 <= i < |roots| ==> roots[i] < |db.types|
    ensures fresh(info) && info.Ready() && info.db == db
    ensures info.aggregates == Recorded(db, TYPICAL)
    ensures info.output == Gathered(TypeGraph(db, info.aggregates), roots)
  {
    info := new StaticInformation(db);
    RecordAll(info, TYPICAL);
    GatherAll(info, roots, TypeGraph(db, info.aggregates));
  }

  method RecordAll(info: StaticInformation, names: seq<(string, string)>)
    requires info.Ready() && info.aggregates == []
    modifies info`aggregates, info`noTids
    ensures info.Ready() && info.aggregates == Recorded(info.db, names)
  {
    ghost var parts := AllKnown(info.db, names);
    for i := 0 to |names|
      invariant info.Ready() && info.aggregates == Joined(parts, i)
    {
      info.RecordAggregationInfo(names[i].0, names[i].1);
    }
  }

  method GatherAll(info: StaticInformation, roots: seq<TypeId>, ghost g: Graph)
    requires info.Ready() && info.output == [] && IsTypeGraph(g, info.db, info.aggregates) && AreTypes(roots, g)
    modifies info`output, info`currentPath, info`alreadyProcessed
    ensures info.Ready() && info.output == Gathered(g, roots)
  {
    ghost var parts := AllFound(g, roots);
    for i := 0 to |roots|
      invariant info.Ready() && info.output == Joined(parts, i)
    {
      ghost var ps := info.Gather(roots[i], g);
    }
  }

  /******* Looking up one type *******/

  /** The simple paths from a root that end at `last`, once each and in preorder. */
  ghost predicate EndAt(g: Graph, root: TypeId, last: TypeId, qs: seq<Path>) {
    Increasing(qs) && forall p :: p in qs <==> IsSimplePath(g, root, [], p) && Destination(g, root, p) == last
  }

  ghost function AllRenderings(g: Graph, roots: seq<TypeId>, qss: seq<seq<Path>>): (r: seq<seq<string>>)
    requires |qss| == |roots|
    ensures |r| == |roots| && forall i :: 0 <= i < |roots| ==> r[i] == Renderings(g, roots[i], qss[i])
  {
    seq(|roots|, i requires 0 <= i < |roots| => Renderings(g, roots[i], qss[i]))
  }

  lemma {:induction false} PathsOfConcat(es: seq<Entry>, fs: seq<Entry>, t: TypeId)
    ensures PathsOf(es + fs, t) == PathsOf(es, t) + PathsOf(fs, t)
  {
    if fs == [] {
      assert es + fs == es;
    } else {
      PathsOfConcat(es, fs[..|fs| - 1], t);
      assert es + fs == (es + fs[..|fs| - 1]) + [fs[|fs| - 1]];
      PathsOfLonger(es + fs[..|fs| - 1], fs[|fs| - 1], t);
    }
  }

  lemma {:induction false} PathsOfJoined(parts: seq<seq<Entry>>, t: TypeId, paths: seq<seq<string>>, n: nat)
    requires n <= |parts| == |paths| && forall i :: 0 <= i < |parts| ==> PathsOf(parts[i], t) == paths[i]
    ensures PathsOf(Joined(parts, n), t) == Joined(paths, n)
  {
    if n > 0 {
      PathsOfJoined(parts, t, paths, n - 1);
      PathsOfOneMore(Joined(parts, n - 1), parts[n - 1], t, Joined(paths, n - 1), paths[n - 1]);
    }
  }

  lemma PathsOfOneMore(es: seq<Entry>, fs: seq<Entry>, t: TypeId, r: seq<string>, s: seq<string>)
    requires PathsOf(es, t) == r && PathsOf(fs, t) == s
    ensures PathsOf(es + fs, t) == r + s
  {
    PathsOfConcat(es, fs, t);
  }

  /**
   After gathering from all roots, looking up a type yields, root by root, exactly the renderings of
   the simple paths from that root to the type.
   */
  lemma LookupAcrossRoots(g: Graph, roots: seq<TypeId>, last: TypeId) returns (qss: seq<seq<Path>>)
    requires ValidGraph(g) && AreTypes(roots, g)
    ensures |qss| == |roots| && forall i :: 0 <= i < |roots| ==> EndAt(g, roots[i], last, qss[i])
    ensures PathsOf(Gathered(g, roots), last) == Joined(AllRenderings(g, roots, qss), |roots|)
  {
    qss := seq(|roots|, i requires 0 <= i < |roots| => PathsTo(g, roots[i], last));
    forall i | 0 <= i < |roots|
      ensures EndAt(g, roots[i], last, qss[i])
      ensures PathsOf(Found(g, roots[i], [], []), last) == Renderings(g, roots[i], qss[i])
    {
      LookupFromRoot(g, roots[i], last);
    }
    PathsOfJoined(AllFound(g, roots), last, AllRenderings(g, roots, qss), |roots|);
  }

  ghost function PathsTo(g: Graph, root: TypeId, last: TypeId): seq<Path>
    requires ValidGraph(g) && root < |g|
  {
    EndingAt(g, root, PathsFrom(g, root, []), last)
  }

  lemma LookupFromRoot(g: Graph, root: TypeId, last: TypeId)
    requires ValidGraph(g) && root < |g|
    ensures EndAt(g, root, last, PathsTo(g, root, last))
    ensures PathsOf(Found(g, root, [], []), last) == Renderings(g, root, PathsTo(g, root, last))
  {
    EnumeratesPaths(g, root, []);
    FoundAreEntries(g, root, [], []);
    var qs := LookupFindsPathsEndingAt(g, root, PathsFrom(g, root, []), last);
  }

  /******* An entry that is recorded twice *******/

  lemma LinkedByTwo(db: TypeDatabase, all: Aggregates, i: nat, j: nat, a: TypeId, b: TypeId)
    requires i < j < |all| && all[i] == (a, b) && all[j] == (a, b)
    ensures DoublyLinked(db, all, a, b)
  {
  }

  /** A pair of known names that is listed twice is aggregated twice. */
  lemma ListedTwice(db: TypeDatabase, names: seq<(string, string)>, m: nat, n: nat, a: TypeId, b: TypeId)
    requires m < n < |names| && names[m] == names[n] && db.Known(names[m].0, names[m].1) == [(a, b)]
    ensures DoublyLinked(db, Recorded(db, names), a, b)
  {
    var parts := AllKnown(db, names);
    var i, j := TwiceInJoined(parts, m, n, (a, b));
    LinkedByTwo(db, Joined(parts, |parts|), i, j, a, b);
  }

  /** The list names the same partner of a node twice, so nodes and that protocol are linked twice. */
  lemma TypicalPairIsListedTwice(db: TypeDatabase, node: TypeId, icmp: TypeId)
    requires db.LookupByName("ns3::Node") == Some(node) && db.LookupByName("ns3::Icmpv4L4Protocol") == Some(icmp)
    ensures DoublyLinked(db, Recorded(db, TYPICAL), node, icmp)
  {
    ListedTwice(db, TYPICAL, 6, 8, node, icmp);
  }

  lemma RepeatsStay<T>(parts: seq<seq<T>>, k: nat)
    requires k < |parts| && !NoRepeats(parts[k])
    ensures !NoRepeats(Joined(parts, |parts|))
  {
    var all, at := Joined(parts, |parts|), |Joined(parts, k)|;
    var i, j :| 0 <= i < j < |parts[k]| && parts[k][i] == parts[k][j];
    JoinedAt(parts, k, i, |parts|);
    JoinedAt(parts, k, j, |parts|);
    assert all[at + i] == all[at + j];
  }

  /**
   Once some root leads to a node by a path clear of that protocol, the output holds an entry twice,
   whatever else is registered.
   */
  lemma TypicalOutputRepeats(
      g: Graph, db: TypeDatabase, roots: seq<TypeId>, k: nat, p: Path, node: TypeId, icmp: TypeId)
    requires IsTypeGraph(g, db, Recorded(db, TYPICAL)) && AreTypes(roots, g) && k < |roots|
    requires db.LookupByName("ns3::Node") == Some(node) && db.LookupByName("ns3::Icmpv4L4Protocol") == Some(icmp)
    requires IsSimplePath(g, roots[k], [], p) && Destination(g, roots[k], p) == node
    requires icmp !in Visited(g, roots[k], p)
    ensures !NoRepeats(Gathered(g, roots))
  {
    TypicalPairIsListedTwice(db, node, icmp);
    DoubleLinkRepeats(g, db, Recorded(db, TYPICAL), roots[k]);
    RepeatsStay(AllFound(g, roots), k);
  }
}
