/** The graph an aggregator keeps, as a value, and the effect of one event on it
    (internal/topology/apply.go and graph.go). */
module GraphModel {
  import opened Bgp

  const MAX_SAMPLES_PER_EDGE := 15

  /** A directed adjacency, from the AS nearer the collector. */
  datatype EdgeKey = EdgeKey(from: Asn, to: Asn)

  datatype Node = Node(
    prefixes: set<Prefix>,
    valid: nat,
    invalid: nat,
    notFound: nat,
    events: nat,
    worst: RPKIStatus,
    times: seq<int>,
    firstSeen: int,
    lastSeen: int)

  datatype Edge = Edge(
    rel: RelStatus,
    status: VFStatus,
    count: nat,
    leakCount: nat,
    hijackCount: nat,
    lastEvent: int,
    lastEventID: EventID,
    samples: seq<EventID>)

  datatype Graph = Graph(nodes: map<Asn, Node>, edges: map<EdgeKey, Edge>, rib: map<Prefix, Asn>)

  const EMPTY := Graph(map[], map[], map[])

  /** The relationship the event's hops give an adjacency. */
  function RelForHop(hops: seq<PathHop>, from: Asn, to: Asn): RelStatus {
    if |hops| == 0 then RelUnknown
    else if hops[0].from == from && hops[0].to == to then hops[0].rel
    else RelForHop(hops[1..], from, to)
  }

  /** The more alarming of two statuses. */
  function WorseRPKI(a: RPKIStatus, b: RPKIStatus): RPKIStatus {
    if a == RPKIInvalid || b == RPKIInvalid then RPKIInvalid
    else if a == RPKIValid || b == RPKIValid then RPKIValid
    else RPKINotFound
  }

  function LastSamples(s: seq<EventID>): seq<EventID> {
    if |s| > MAX_SAMPLES_PER_EDGE then s[|s| - MAX_SAMPLES_PER_EDGE..] else s
  }

  function NewNode(now: int): Node {
    Node({}, 0, 0, 0, 0, RPKINotFound, [], now, now)
  }

  /** The node of an AS, made on first sight. */
  function NodeOf(nodes: map<Asn, Node>, asn: Asn, now: int): Node {
    if asn in nodes then nodes[asn] else NewNode(now)
  }

  /** The node seen now. */
  function Seen(nodes: map<Asn, Node>, asn: Asn, now: int): map<Asn, Node> {
    nodes[asn := NodeOf(nodes, asn, now).(lastSeen := now)]
  }

  /** The origin's node after one more announcement. */
  function Tallied(n: Node, status: RPKIStatus, now: int): Node {
    var m := n.(lastSeen := now, events := n.events + 1, times := n.times + [now], worst := WorseRPKI(n.worst, status));
    match status
    case RPKIValid => m.(valid := n.valid + 1)
    case RPKIInvalid => m.(invalid := n.invalid + 1)
    case RPKINotFound => m.(notFound := n.notFound + 1)
  }

  function ApplyOrigin(g: Graph, ev: ClassifiedEvent): Graph {
    var now, o := ev.event.timestamp, ev.event.originAS;
    g.(nodes := g.nodes[o := Tallied(NodeOf(g.nodes, o, now), ev.rpkiStatus, now)])
  }

  /** An edge before its first traversal, which gives it its relationship. */
  function NewEdge(key: EdgeKey, ev: ClassifiedEvent): Edge {
    Edge(RelForHop(ev.hops, key.from, key.to), VFValid, 0, 0, 0, 0, 0, [])
  }

  /** The edge after one more traversal. */
  function Traversed(before: Option<Edge>, key: EdgeKey, ev: ClassifiedEvent): Edge {
    var e := if before.Some? then before.value else NewEdge(key, ev);
    e.(count := e.count + 1,
       leakCount := e.leakCount + if ev.vfStatus == VFLeak then 1 else 0,
       hijackCount := e.hijackCount + if ev.vfStatus == VFHijack then 1 else 0,
       status := ev.vfStatus,
       lastEvent := ev.event.timestamp,
       lastEventID := ev.event.id,
       samples := LastSamples(e.samples + [ev.event.id]))
  }

  function EdgeAt(edges: map<EdgeKey, Edge>, key: EdgeKey): Option<Edge> {
    if key in edges then Some(edges[key]) else None
  }

  /** The effect of the adjacency at position i of the path; prepending is no adjacency. */
  function ApplyAdjacency(g: Graph, ev: ClassifiedEvent, i: nat): Graph
    requires i + 1 < |ev.event.asPath|
  {
    var from, to, now := ev.event.asPath[i], ev.event.asPath[i + 1], ev.event.timestamp;
    if from == to then g
    else
      var key := EdgeKey(from, to);
      g.(nodes := Seen(Seen(g.nodes, from, now), to, now),
         edges := g.edges[key := Traversed(EdgeAt(g.edges, key), key, ev)])
  }

  /** The effect of the first n adjacencies of the path. */
  function ApplyEdges(g: Graph, ev: ClassifiedEvent, n: nat): Graph
    requires n == 0 || n < |ev.event.asPath|
  {
    if n == 0 then g else ApplyAdjacency(ApplyEdges(g, ev, n - 1), ev, n - 1)
  }

  function Adjacencies(path: seq<Asn>): nat {
    if |path| == 0 then 0 else |path| - 1
  }

  function WithPrefixes(nodes: map<Asn, Node>, o: Asn, prefixes: set<Prefix>): map<Asn, Node>
    requires o in nodes
  {
    nodes[o := nodes[o].(prefixes := prefixes)]
  }

  function Released(nodes: map<Asn, Node>, o: Asn, p: Prefix): map<Asn, Node> {
    if o in nodes then WithPrefixes(nodes, o, nodes[o].prefixes - {p}) else nodes
  }

  function ApplyRIB(g: Graph, ev: ClassifiedEvent): Graph {
    var p, o := ev.event.prefix, ev.event.originAS;
    match ev.event.kind
    case Announce =>
      if o == 0 then g
      else
        var nodes := if p in g.rib && g.rib[p] != o then Released(g.nodes, g.rib[p], p) else g.nodes;
        var nodes' := if o in nodes then WithPrefixes(nodes, o, nodes[o].prefixes + {p}) else nodes;
        g.(nodes := nodes', rib := g.rib[p := o])
    case Withdraw =>
      if p in g.rib then g.(nodes := Released(g.nodes, g.rib[p], p), rib := g.rib - {p}) else g
  }

  /** The effect of one event. */
  function Apply(g: Graph, ev: ClassifiedEvent): Graph {
    var e := ev.event;
    var g1 := if e.kind == Announce && e.originAS != 0 then ApplyOrigin(g, ev) else g;
    var g2 := if e.kind == Announce then ApplyEdges(g1, ev, Adjacencies(e.asPath)) else g1;
    ApplyRIB(g2, ev)
  }

  /** The graph after a history of events. */
  function Replay(h: seq<ClassifiedEvent>): Graph {
    if |h| == 0 then EMPTY else Apply(Replay(h[..|h| - 1]), Last(h))
  }
}
