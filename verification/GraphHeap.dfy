/** The objects of the graph (internal/topology/graph.go): nodes and edges, updated in place. The
    ghost maps `vals` say what each object stands for as a value, and `owner` which key each heap
    object belongs to, so that no two keys share one. */
module GraphHeap {
  import opened Bgp
  import opened GraphModel
  import RingCounters
  import Views

  class ASNode {
    const asn: Asn
    const firstSeen: int
    const series: RingCounters.RingCounters
    var prefixes: set<Prefix>
    var valid: nat
    var invalid: nat
    var notFound: nat
    var events: nat
    var worst: RPKIStatus
    var lastSeen: int

    constructor (asn: Asn, now: int)
      ensures this.asn == asn
      ensures series.Valid() && fresh(series) && fresh(series.buckets)
      ensures Value() == NewNode(now)
    {
      this.asn, firstSeen, lastSeen := asn, now, now;
      series := new RingCounters.RingCounters();
      prefixes, valid, invalid, notFound, events, worst := {}, 0, 0, 0, 0, RPKINotFound;
    }

    ghost function Value(): Node
      reads this, series
    {
      Node(prefixes, valid, invalid, notFound, events, worst, series.times, firstSeen, lastSeen)
    }

    function View(): Views.NodeView
      reads this
    {
      Views.NodeView(asn, |prefixes|, valid, invalid, notFound, firstSeen, lastSeen)
    }

    /** The sidebar's figures for this origin. */
    method Stat() returns (o: Views.OriginStat)
      requires series.Valid()
      ensures o == Views.OriginStatOf(asn, Value())
    {
      var throughput := series.Series();
      o := Views.OriginStat(asn, |prefixes|, worst, valid, invalid, notFound, throughput);
    }

    /** One more announcement from this origin. */
    method Tally(status: RPKIStatus, now: int)
      requires series.Valid()
      modifies this, series, series.buckets
      ensures series.Valid()
      ensures Value() == Tallied(old(Value()), status, now)
    {
      hide RingCounters.RingCounters.Valid, RingCounters.SparkOf, RingCounters.Told;
      lastSeen := now;
      events := events + 1;
      series.Add(now);
      match status {
        case RPKIValid => valid := valid + 1;
        case RPKIInvalid => invalid := invalid + 1;
        case RPKINotFound => notFound := notFound + 1;
      }
      worst := WorseRPKI(worst, status);
    }
  }

  class EdgeRecord {
    const key: EdgeKey
    const rel: RelStatus
    var status: VFStatus
    var count: nat
    var leakCount: nat
    var hijackCount: nat
    var lastEvent: int
    var lastEventID: EventID
    var samples: seq<EventID>

    constructor (key: EdgeKey, rel: RelStatus)
      ensures this.key == key
      ensures Value() == Edge(rel, VFValid, 0, 0, 0, 0, 0, [])
    {
      this.key, this.rel := key, rel;
      status, count, leakCount, hijackCount, lastEvent, lastEventID, samples := VFValid, 0, 0, 0, 0, 0, [];
    }

    function Value(): Edge
      reads this
    {
      Edge(rel, status, count, leakCount, hijackCount, lastEvent, lastEventID, samples)
    }

    function View(): Views.EdgeView
      reads this
    {
      Views.EdgeView(key.from, key.to, status, rel, count, leakCount, hijackCount, lastEvent, lastEventID)
    }

    /** One more traversal. */
    method Cross(ev: ClassifiedEvent)
      modifies this
      ensures Value() == Traversed(Some(old(Value())), key, ev)
    {
      count := count + 1;
      match ev.vfStatus {
        case VFLeak => leakCount := leakCount + 1;
        case VFHijack => hijackCount := hijackCount + 1;
        case _ =>
      }
      status := ev.vfStatus;
      lastEvent := ev.event.timestamp;
      lastEventID := ev.event.id;
      samples := AppendSample(samples, ev.event.id);
    }
  }

  function AppendSample(s: seq<EventID>, id: EventID): seq<EventID> {
    LastSamples(s + [id])
  }

  type Nodes = map<Asn, ASNode>
  type EdgeRecords = map<EdgeKey, EdgeRecord>
  type Owner = map<object, Asn>

  /** The node object of AS a, with its series, belongs to a alone and stands for v. */
  ghost predicate IsNode(a: Asn, n: ASNode, owner: Owner, v: Node)
    reads owner.Keys
  {
    && n in owner && owner[n] == a && n.asn == a
    && n.series in owner && owner[n.series] == a
    && n.series.buckets in owner && owner[n.series.buckets] == a
    && n.series.Valid()
    && n.Value() == v
  }

  ghost predicate NodesStandFor(nodes: Nodes, owner: Owner, vals: map<Asn, Node>)
    reads owner.Keys
  {
    && nodes.Keys == vals.Keys
    && forall a :: a in nodes ==> IsNode(a, nodes[a], owner, vals[a])
  }

  /** The edge object of key k stands for v. */
  ghost predicate EdgesStandFor(edges: EdgeRecords, repr: set<EdgeRecord>, vals: map<EdgeKey, Edge>)
    reads repr
  {
    && edges.Keys == vals.Keys
    && forall k :: k in edges ==> edges[k] in repr && edges[k].key == k && edges[k].Value() == vals[k]
  }

  ghost function WithNode(owner: Owner, a: Asn, n: ASNode): Owner {
    owner[n := a][n.series := a][n.series.buckets := a]
  }

  method MakeNode(ghost nodes: Nodes, ghost owner: Owner, ghost vals: map<Asn, Node>, asn: Asn, now: int) returns (n: ASNode)
    requires NodesStandFor(nodes, owner, vals) && asn !in nodes
    ensures n.asn == asn && fresh(n) && fresh(n.series) && fresh(n.series.buckets)
    ensures NodesStandFor(nodes[asn := n], WithNode(owner, asn, n), vals[asn := NewNode(now)])
  {
    hide RingCounters.RingCounters.Valid, RingCounters.SparkOf, RingCounters.Told;
    n := new ASNode(asn, now);
  }

  method SetSeen(ghost nodes: Nodes, ghost owner: Owner, ghost vals: map<Asn, Node>, ghost asn: Asn, n: ASNode, now: int)
    requires NodesStandFor(nodes, owner, vals) && asn in nodes && n == nodes[asn]
    modifies n
    ensures NodesStandFor(nodes, owner, vals[asn := vals[asn].(lastSeen := now)])
  {
    hide RingCounters.RingCounters.Valid, RingCounters.SparkOf, RingCounters.Told;
    n.lastSeen := now;
  }

  method SetPrefixes(ghost nodes: Nodes, ghost owner: Owner, ghost vals: map<Asn, Node>, ghost asn: Asn, n: ASNode, prefixes: set<Prefix>)
    requires NodesStandFor(nodes, owner, vals) && asn in nodes && n == nodes[asn]
    modifies n
    ensures NodesStandFor(nodes, owner, vals[asn := vals[asn].(prefixes := prefixes)])
  {
    hide RingCounters.RingCounters.Valid, RingCounters.SparkOf, RingCounters.Told;
    n.prefixes := prefixes;
  }

  method TallyNode(ghost nodes: Nodes, ghost owner: Owner, ghost vals: map<Asn, Node>, ghost asn: Asn, n: ASNode, status: RPKIStatus, now: int)
    requires NodesStandFor(nodes, owner, vals) && asn in nodes && n == nodes[asn]
    modifies n, n.series, n.series.buckets
    ensures NodesStandFor(nodes, owner, vals[asn := Tallied(vals[asn], status, now)])
  {
    hide RingCounters.RingCounters.Valid, RingCounters.SparkOf, RingCounters.Told;
    n.Tally(status, now);
  }

  method MakeEdge(ghost edges: EdgeRecords, ghost repr: set<EdgeRecord>, ghost vals: map<EdgeKey, Edge>, key: EdgeKey, ev: ClassifiedEvent)
    returns (e: EdgeRecord)
    requires EdgesStandFor(edges, repr, vals) && key !in edges
    ensures fresh(e)
    ensures EdgesStandFor(edges[key := e], repr + {e}, vals[key := NewEdge(key, ev)])
  {
    e := new EdgeRecord(key, RelForHop(ev.hops, key.from, key.to));
  }

  method CrossEdge(ghost edges: EdgeRecords, ghost repr: set<EdgeRecord>, ghost vals: map<EdgeKey, Edge>, key: EdgeKey, e: EdgeRecord, ev: ClassifiedEvent)
    requires EdgesStandFor(edges, repr, vals) && key in edges && e == edges[key]
    modifies e
    ensures EdgesStandFor(edges, repr, vals[key := Traversed(Some(vals[key]), key, ev)])
  {
    e.Cross(ev);
  }
}
