/** The snapshots an aggregator hands out (internal/topology/views.go), as functions of its graph. */
module Views {
  import opened Bgp
  import opened GraphModel
  import opened Ordering
  import RingCounters

  const TOP_ORIGINS_LIMIT := 40

  datatype NodeView = NodeView(
    asn: Asn,
    prefixCount: nat,
    valid: nat,
    invalid: nat,
    notFound: nat,
    firstSeen: int,
    lastSeen: int)

  datatype EdgeView = EdgeView(
    from: Asn,
    to: Asn,
    status: VFStatus,
    rel: RelStatus,
    count: nat,
    leakCount: nat,
    hijackCount: nat,
    lastEvent: int,
    lastEventID: EventID)

  datatype Topology = Topology(nodes: seq<NodeView>, edges: seq<EdgeView>)

  datatype OriginStat = OriginStat(
    asn: Asn,
    prefixCount: nat,
    rpki: RPKIStatus,
    valid: nat,
    invalid: nat,
    notFound: nat,
    throughput: seq<int>)

  /** What the top origins are ranked by. */
  datatype Activity = Activity(asn: Asn, events: nat)

  function NodeViewOf(a: Asn, n: Node): NodeView {
    NodeView(a, |n.prefixes|, n.valid, n.invalid, n.notFound, n.firstSeen, n.lastSeen)
  }

  function EdgeViewOf(k: EdgeKey, e: Edge): EdgeView {
    EdgeView(k.from, k.to, e.status, e.rel, e.count, e.leakCount, e.hijackCount, e.lastEvent, e.lastEventID)
  }

  function OriginStatOf(a: Asn, n: Node): OriginStat {
    OriginStat(a, |n.prefixes|, n.worst, n.valid, n.invalid, n.notFound, RingCounters.SparkOf(n.times).window)
  }

  function NodeRank(v: NodeView): Rank {
    Rank(v.asn, 0)
  }

  function EdgeRank(v: EdgeView): Rank {
    Rank(v.from, v.to)
  }

  /** The busiest first. */
  function ActivityRank(v: Activity): Rank {
    Rank(0 - v.events, v.asn)
  }

  function NodeViews(nodes: map<Asn, Node>): (s: set<NodeView>)
    ensures Ranks(NodeRank, s)
  {
    set a | a in nodes :: NodeViewOf(a, nodes[a])
  }

  function EdgeViews(edges: map<EdgeKey, Edge>): (s: set<EdgeView>)
    ensures Ranks(EdgeRank, s)
  {
    set k | k in edges :: EdgeViewOf(k, edges[k])
  }

  function Activities(nodes: map<Asn, Node>): (s: set<Activity>)
    ensures Ranks(ActivityRank, s)
    ensures forall x :: x in s ==> x.asn in nodes
  {
    set a | a in nodes && nodes[a].events > 0 :: Activity(a, nodes[a].events)
  }

  /** The whole graph, sorted by AS and by adjacency. */
  ghost function TopologyOf(g: Graph): Topology {
    Topology(SortedBy(NodeViews(g.nodes), NodeRank), SortedBy(EdgeViews(g.edges), EdgeRank))
  }

  /** The ASes that originated the most events, busiest first, ties by AS number. */
  ghost function Busiest(nodes: map<Asn, Node>): (top: seq<Activity>)
    ensures |top| <= TOP_ORIGINS_LIMIT
    ensures forall i {:trigger top[i]} :: 0 <= i < |top| ==> top[i] in Activities(nodes)
  {
    var all := SortedBy(Activities(nodes), ActivityRank);
    if |all| > TOP_ORIGINS_LIMIT then all[..TOP_ORIGINS_LIMIT] else all
  }

  /** Their figures. */
  ghost function TopOriginsOf(nodes: map<Asn, Node>): (top: seq<OriginStat>)
    ensures |top| == |Busiest(nodes)|
    ensures forall i {:trigger top[i]} :: 0 <= i < |top| ==>
      Busiest(nodes)[i].asn in nodes && top[i] == OriginStatOf(Busiest(nodes)[i].asn, nodes[Busiest(nodes)[i].asn])
  {
    var top := Busiest(nodes);
    seq(|top|, i requires 0 <= i < |top| => OriginStatOf(top[i].asn, nodes[top[i].asn]))
  }
}
