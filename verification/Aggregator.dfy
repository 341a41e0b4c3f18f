/** The single writer (internal/topology/aggregator.go and apply.go): every event it takes changes
    its graph, ring and counters as the history it has taken says. */
module Aggregator {
  import opened Bgp
  import opened GraphModel
  import opened GraphHeap
  import opened GraphCounters
  import EventRing
  import Ordering
  import Views

  const SNAPSHOT_EVENTS_LIMIT := 200

  class TopologyGraph {
    var nodes: Nodes
    var edges: EdgeRecords
    var rib: map<Prefix, Asn>
    ghost var owner: Owner
    ghost var edgeRepr: set<EdgeRecord>
    ghost var value: Graph

    ghost predicate Valid()
      reads this, owner.Keys, edgeRepr
    {
      && this !in owner && owner.Keys !! edgeRepr
      && NodesStandFor(nodes, owner, value.nodes)
      && EdgesStandFor(edges, edgeRepr, value.edges)
      && rib == value.rib
    }

    /** Only objects of the graph, old or newly made, may have changed. */
    twostate predicate Grew()
      reads this
    {
      fresh(owner.Keys - old(owner.Keys)) && fresh(edgeRepr - old(edgeRepr))
    }

    constructor ()
      ensures Valid() && value == EMPTY
      ensures owner == map[] && edgeRepr == {}
    {
      nodes, edges, rib, owner, edgeRepr, value := map[], map[], map[], map[], {}, EMPTY;
    }

    /** The node of an AS, made on first sight. */
    method NodeFor(asn: Asn, now: int) returns (n: ASNode)
      requires Valid()
      modifies this`nodes, this`owner, this`value
      ensures Valid() && Grew()
      ensures asn in nodes && n == nodes[asn]
      ensures value == old(value).(nodes := old(value).nodes[asn := NodeOf(old(value).nodes, asn, now)])
    {
      hide IsNode, EdgesStandFor;
      if asn in nodes {
        n := nodes[asn];
        assert value.nodes[asn := value.nodes[asn]] == value.nodes;
        return;
      }
      n := MakeNode(nodes, owner, value.nodes, asn, now);
      nodes, owner := nodes[asn := n], WithNode(owner, asn, n);
      value := value.(nodes := value.nodes[asn := NewNode(now)]);
    }

    /** An AS on the path, seen now. */
    method See(asn: Asn, now: int)
      requires Valid()
      modifies this`nodes, this`owner, this`value, owner.Keys
      ensures Valid() && Grew()
      ensures value == old(value).(nodes := Seen(old(value).nodes, asn, now))
    {
      hide NodesStandFor, EdgesStandFor;
      var n := NodeFor(asn, now);
      Owned(asn);
      SetSeen(nodes, owner, value.nodes, asn, n, now);
      value := value.(nodes := value.nodes[asn := value.nodes[asn].(lastSeen := now)]);
      assert value.nodes == Seen(old(value).nodes, asn, now);
    }

    /** A node's objects are among the owned ones. */
    lemma Owned(asn: Asn)
      requires Valid() && asn in nodes
      ensures asn in value.nodes && nodes[asn] in owner && nodes[asn].series in owner && nodes[asn].series.buckets in owner
      ensures NodesStandFor(nodes, owner, value.nodes) && EdgesStandFor(edges, edgeRepr, value.edges)
    {
    }

    /** The origin's tallies, series and activity. */
    method OriginStep(ev: ClassifiedEvent)
      requires Valid()
      modifies this`nodes, this`owner, this`value, owner.Keys
      ensures Valid() && Grew()
      ensures value == ApplyOrigin(old(value), ev)
    {
      hide NodesStandFor, EdgesStandFor;
      var now, o := ev.event.timestamp, ev.event.originAS;
      var n := NodeFor(o, now);
      Owned(o);
      TallyNode(nodes, owner, value.nodes, o, n, ev.rpkiStatus, now);
      value := value.(nodes := value.nodes[o := Tallied(value.nodes[o], ev.rpkiStatus, now)]);
      assert value.nodes == ApplyOrigin(old(value), ev).nodes;
    }

    /** The edge of an adjacency, made on its first traversal. */
    method EdgeFor(key: EdgeKey, ev: ClassifiedEvent) returns (e: EdgeRecord)
      requires Valid()
      modifies this`edges, this`edgeRepr, this`value
      ensures Valid() && Grew()
      ensures key in edges && e == edges[key]
      ensures value == old(value).(edges :=
        if key in old(value).edges then old(value).edges else old(value).edges[key := NewEdge(key, ev)])
    {
      hide NodesStandFor, EdgesStandFor;
      SameEdges(key);
      if key in edges {
        return edges[key];
      }
      e := MakeEdge(edges, edgeRepr, value.edges, key, ev);
      edges, edgeRepr := edges[key := e], edgeRepr + {e};
      value := value.(edges := value.edges[key := NewEdge(key, ev)]);
    }

    /** One traversal of an adjacency. */
    method UpsertEdge(key: EdgeKey, ev: ClassifiedEvent)
      requires Valid()
      modifies this`edges, this`edgeRepr, this`value, edgeRepr
      ensures Valid() && Grew()
      ensures value == old(value).(edges := old(value).edges[key := Traversed(EdgeAt(old(value).edges, key), key, ev)])
    {
      hide NodesStandFor, EdgesStandFor, Traversed;
      ghost var before := value.edges;
      var e := EdgeFor(key, ev);
      OwnedEdge(key);
      CrossEdge(edges, edgeRepr, value.edges, key, e, ev);
      EdgeUpserted(before, key, ev);
      value := value.(edges := value.edges[key := Traversed(Some(value.edges[key]), key, ev)]);
    }

    lemma SameEdges(key: EdgeKey)
      requires Valid()
      ensures key in edges <==> key in value.edges
    {
      hide NodesStandFor;
    }

    lemma OwnedEdge(key: EdgeKey)
      requires Valid() && key in edges
      ensures key in value.edges && edges[key] in edgeRepr
      ensures EdgesStandFor(edges, edgeRepr, value.edges)
    {
      hide NodesStandFor;
    }

    /** The path's adjacencies, one by one. */
    method EdgesStep(ev: ClassifiedEvent)
      requires Valid()
      modifies this, owner.Keys, edgeRepr
      ensures Valid() && Grew()
      ensures value == ApplyEdges(old(value), ev, Adjacencies(ev.event.asPath))
    {
      hide NodesStandFor, EdgesStandFor, Seen;
      var path, now := ev.event.asPath, ev.event.timestamp;
      for i := 0 to Adjacencies(path)
        invariant Valid() && Grew()
        invariant value == ApplyEdges(old(value), ev, i)
      {
        var from, to := path[i], path[i + 1];
        if from == to {
          continue;
        }
        See(from, now);
        See(to, now);
        UpsertEdge(EdgeKey(from, to), ev);
      }
    }

    /** Takes a prefix from an AS, if the AS is known. */
    method Release(o: Asn, p: Prefix)
      requires Valid()
      modifies this`value, owner.Keys
      ensures Valid()
      ensures value == old(value).(nodes := Released(old(value).nodes, o, p))
    {
      hide EdgesStandFor, IsNode;
      if o in nodes {
        ReadPrefixes(o);
        ghost var vals := value.nodes;
        SetPrefixes(nodes, owner, vals, o, nodes[o], nodes[o].prefixes - {p});
        value := value.(nodes := vals[o := vals[o].(prefixes := vals[o].prefixes - {p})]);
      }
    }

    /** Gives a prefix to an AS, if the AS is known. */
    method Grant(o: Asn, p: Prefix)
      requires Valid()
      modifies this`value, owner.Keys
      ensures Valid()
      ensures value == old(value).(nodes :=
        if o in old(value).nodes then WithPrefixes(old(value).nodes, o, old(value).nodes[o].prefixes + {p}) else old(value).nodes)
    {
      hide EdgesStandFor, IsNode;
      if o in nodes {
        ReadPrefixes(o);
        ghost var vals := value.nodes;
        SetPrefixes(nodes, owner, vals, o, nodes[o], nodes[o].prefixes + {p});
        value := value.(nodes := vals[o := vals[o].(prefixes := vals[o].prefixes + {p})]);
      }
    }

    lemma ReadPrefixes(o: Asn)
      requires Valid() && o in nodes
      ensures o in value.nodes && nodes[o] in owner && nodes[o].prefixes == value.nodes[o].prefixes
    {
    }

    /** The whole effect of one event on the graph. */
    method Step(ev: ClassifiedEvent)
      requires Valid()
      modifies this, owner.Keys, edgeRepr
      ensures Valid() && Grew()
      ensures value == Apply(old(value), ev)
    {
      hide NodesStandFor, EdgesStandFor, ApplyOrigin, ApplyEdges, ApplyRIB;
      var e := ev.event;
      if e.kind == Announce && e.originAS != 0 {
        OriginStep(ev);
      }
      if e.kind == Announce {
        EdgesStep(ev);
      }
      RIBStep(ev);
    }

    /** The graph as it is, in sorted order. */
    method BuildTopology() returns (t: Views.Topology)
      requires Valid()
      ensures t == Views.TopologyOf(value)
    {
      hide NodesStandFor, EdgesStandFor, Ordering.SortedBy, Views.NodeViews, Views.EdgeViews, NodeSet, EdgeSet;
      SameViews();
      var nodeViews := Ordering.Sort(NodeSet(), Views.NodeRank);
      var edgeViews := Ordering.Sort(EdgeSet(), Views.EdgeRank);
      t := Views.Topology(nodeViews, edgeViews);
    }

    function NodeSet(): set<Views.NodeView>
      reads this, nodes.Values
    {
      set a | a in nodes :: nodes[a].View()
    }

    function EdgeSet(): set<Views.EdgeView>
      reads this, edges.Values
    {
      set k | k in edges :: edges[k].View()
    }

    lemma SameViews()
      requires Valid()
      ensures NodeSet() == Views.NodeViews(value.nodes)
      ensures EdgeSet() == Views.EdgeViews(value.edges)
    {
      hide NodesStandFor, EdgesStandFor;
      NodeViewsAgree();
      EdgeViewsAgree();
    }

    lemma NodeViewsAgree()
      requires Valid()
      ensures nodes.Keys == value.nodes.Keys
      ensures forall a :: a in nodes ==> nodes[a].View() == Views.NodeViewOf(a, value.nodes[a])
    {
      hide EdgesStandFor;
    }

    lemma EdgeViewsAgree()
      requires Valid()
      ensures edges.Keys == value.edges.Keys
      ensures forall k :: k in edges ==> edges[k].View() == Views.EdgeViewOf(k, value.edges[k])
    {
      hide NodesStandFor;
    }

    /** The busiest origins. */
    method TopOrigins() returns (top: seq<Views.OriginStat>)
      requires Valid()
      ensures top == Views.TopOriginsOf(value.nodes)
    {
      hide Valid, Ordering.SortedBy, ActivitySet, Views.Activities, Views.OriginStatOf, Views.TopOriginsOf;
      SameActivities();
      var origins := Ordering.Sort(ActivitySet(), Views.ActivityRank);
      if |origins| > Views.TOP_ORIGINS_LIMIT {
        origins := origins[..Views.TOP_ORIGINS_LIMIT];
      }
      assert origins == Views.Busiest(value.nodes);
      top := FiguresOf(origins);
    }

    method FiguresOf(origins: seq<Views.Activity>) returns (top: seq<Views.OriginStat>)
      requires Valid() && origins == Views.Busiest(value.nodes)
      ensures top == Views.TopOriginsOf(value.nodes)
    {
      hide *;
      top := [];
      for i := 0 to |origins|
        invariant |top| == i
        invariant forall j :: 0 <= j < i ==> top[j] == Views.TopOriginsOf(value.nodes)[j]
      {
        ghost var want := Views.TopOriginsOf(value.nodes)[i];
        OriginOwned(origins[i].asn);
        var stat := nodes[origins[i].asn].Stat();
        top := top + [stat];
      }
    }

    function ActivitySet(): set<Views.Activity>
      reads this, nodes.Values
    {
      set a | a in nodes && nodes[a].events > 0 :: Views.Activity(a, nodes[a].events)
    }

    lemma OriginOwned(a: Asn)
      requires Valid() && a in value.nodes
      ensures a in nodes && nodes[a].series.Valid() && nodes[a].asn == a && nodes[a].Value() == value.nodes[a]
    {
      hide EdgesStandFor;
    }

    lemma SameActivities()
      requires Valid()
      ensures ActivitySet() == Views.Activities(value.nodes)
    {
      hide NodesStandFor, EdgesStandFor;
      SameEvents();
    }

    lemma SameEvents()
      requires Valid()
      ensures nodes.Keys == value.nodes.Keys
      ensures forall a :: a in nodes ==> nodes[a].events == value.nodes[a].events
    {
      hide EdgesStandFor;
    }

    /** Prefix ownership: an announcement assigns, a withdraw releases. */
    method RIBStep(ev: ClassifiedEvent)
      requires Valid()
      modifies this`rib, this`value, owner.Keys
      ensures Valid()
      ensures value == ApplyRIB(old(value), ev)
    {
      hide NodesStandFor, EdgesStandFor, Released, WithPrefixes;
      var p, o := ev.event.prefix, ev.event.originAS;
      match ev.event.kind {
        case Announce =>
          if o == 0 {
            return;
          }
          if p in rib && rib[p] != o {
            Release(rib[p], p);
          }
          rib := rib[p := o];
          value := value.(rib := rib);
          Grant(o, p);
        case Withdraw =>
          if p in rib {
            Release(rib[p], p);
            rib := rib - {p};
            value := value.(rib := rib);
          }
      }
    }
  }

  /** Making an edge and crossing it is one traversal. */
  lemma EdgeUpserted(before: map<EdgeKey, Edge>, key: EdgeKey, ev: ClassifiedEvent)
    ensures var made := if key in before then before else before[key := NewEdge(key, ev)];
      made[key := Traversed(Some(made[key]), key, ev)] == before[key := Traversed(EdgeAt(before, key), key, ev)]
  {
    assert Traversed(Some(NewEdge(key, ev)), key, ev) == Traversed(None, key, ev);
  }

  /** A request for a snapshot, and its reply. */
  datatype Request =
    | TopologyRequest
    | EventsRequest(limit: int)
    | StatsRequest
    | EdgeRequest(from: Asn, to: Asn, atMost: nat)
    | FullRequest

  datatype StatsView = StatsView(counters: Counters, nodeCount: nat, edgeCount: nat, topOrigins: seq<Views.OriginStat>)

  datatype Reply =
    | TopologyReply(topology: Views.Topology)
    | EventsReply(events: seq<ClassifiedEvent>)
    | StatsReply(stats: StatsView)
    | EdgeReply(found: bool, edge: Views.EdgeView, traversing: seq<ClassifiedEvent>)
    | FullReply(topology: Views.Topology, events: seq<ClassifiedEvent>, stats: StatsView)

  class Aggregator {
    const graph: TopologyGraph
    const ring: EventRing.EventRing
    const stats: Stats
    ghost var history: seq<ClassifiedEvent>

    /** The graph, the ring and the counters are those of the history. */
    ghost predicate Valid()
      reads this, graph, graph.owner.Keys, graph.edgeRepr, ring, ring.buf, stats
    {
      && graph.Valid() && ring.Valid()
      && {this, graph, ring, ring.buf, stats} !! graph.owner.Keys
      && graph.value == Replay(history)
      && ring.pushed == history
      && stats.Value() == CountersOf(history)
    }

    constructor (ringCap: int)
      ensures Valid() && history == []
      ensures ring.cap == if ringCap < 1 then 1 else ringCap
    {
      graph := new TopologyGraph();
      ring := new EventRing.EventRing(ringCap);
      stats := new Stats();
      history := [];
    }

    /** Takes one event: the single path by which the graph changes. */
    method Take(ev: ClassifiedEvent)
      requires Valid()
      modifies this, graph, graph.owner.Keys, graph.edgeRepr, ring, ring.buf, stats
      ensures Valid() && history == old(history) + [ev]
      ensures fresh(graph.owner.Keys - old(graph.owner.Keys)) && fresh(graph.edgeRepr - old(graph.edgeRepr))
    {
      hide NodesStandFor, EdgesStandFor, Replay, CountersOf, Apply, Recorded;
      TakeStarts();
      graph.Step(ev);
      ring.Push(ev);
      stats.Record(ev);
      history := history + [ev];
      TakeEnds(ev);
    }

    lemma TakeStarts()
      requires Valid()
      ensures graph.Valid() && ring.Valid()
      ensures {this, graph, ring, ring.buf, stats} !! graph.owner.Keys
      ensures graph.value == Replay(history) && ring.pushed == history && stats.Value() == CountersOf(history)
    {
      hide NodesStandFor, EdgesStandFor, Replay, CountersOf;
    }

    lemma TakeEnds(ev: ClassifiedEvent)
      requires |history| > 0 && Last(history) == ev
      requires graph.Valid() && ring.Valid()
      requires {this, graph, ring, ring.buf, stats} !! graph.owner.Keys
      requires graph.value == Apply(Replay(history[..|history| - 1]), ev)
      requires ring.pushed == history && stats.Value() == Recorded(CountersOf(history[..|history| - 1]), ev)
      ensures Valid()
    {
      hide NodesStandFor, EdgesStandFor, Apply;
    }

    /** Answers a request: with what the history says. */
    method Handle(req: Request) returns (r: Reply)
      requires Valid()
      ensures r == ReplyTo(history, ring.cap, req)
    {
      hide Replay, CountersOf, EventRing.Newest, EventRing.Traversing, Views.TopologyOf, Views.TopOriginsOf, NodesStandFor, EdgesStandFor;
      match req {
        case TopologyRequest =>
          var t := graph.BuildTopology();
          r := TopologyReply(t);
        case EventsRequest(limit) =>
          var events := ring.Recent(limit);
          r := EventsReply(events);
        case StatsRequest =>
          var s := BuildStats();
          r := StatsReply(s);
        case EdgeRequest(from, to, limit) =>
          r := BuildEdgeDetail(from, to, limit);
        case FullRequest =>
          var t := graph.BuildTopology();
          var events := ring.Recent(SNAPSHOT_EVENTS_LIMIT);
          var s := BuildStats();
          r := FullReply(t, events, s);
      }
    }

    method BuildStats() returns (s: StatsView)
      requires Valid()
      ensures s == StatsOf(history)
    {
      hide Replay, CountersOf, Views.TopOriginsOf, NodesStandFor, EdgesStandFor;
      SameSizes();
      var top := graph.TopOrigins();
      s := StatsView(stats.Value(), |graph.nodes|, |graph.edges|, top);
    }

    method BuildEdgeDetail(from: Asn, to: Asn, limit: nat) returns (r: Reply)
      requires Valid()
      ensures r == EdgeDetailOf(history, ring.cap, from, to, limit)
    {
      hide Replay, CountersOf, EventRing.Newest, EventRing.Traversing;
      var key := EdgeKey(from, to);
      if key in graph.edges {
        var events := ring.ByEdge(from, to, limit);
        r := EdgeReply(true, graph.edges[key].View(), events);
      } else {
        r := EdgeReply(false, NO_EDGE, []);
      }
    }

    lemma SameSizes()
      requires Valid()
      ensures |graph.nodes| == |graph.value.nodes| && |graph.edges| == |graph.value.edges|
    {
      assert |graph.nodes.Keys| == |graph.value.nodes.Keys|;
      assert |graph.edges.Keys| == |graph.value.edges.Keys|;
    }

    /** The writer's loop on the events and requests that reach it, in the order they do: every reply
        is right for exactly the events taken before its request. */
    method Run(inbox: seq<Inbox>) returns (replies: seq<Reply>)
      requires Valid()
      modifies this, graph, graph.owner.Keys, graph.edgeRepr, ring, ring.buf, stats
      ensures Valid() && history == old(history) + Taken(inbox)
      ensures replies == Replies(old(history), ring.cap, inbox)
    {
      hide *;
      replies := [];
      RunStarts(history, ring.cap, inbox);
      for n := 0 to |inbox|
        invariant Valid() && history == old(history) + Taken(inbox[..n])
        invariant replies == Replies(old(history), ring.cap, inbox[..n])
        invariant fresh(graph.owner.Keys - old(graph.owner.Keys)) && fresh(graph.edgeRepr - old(graph.edgeRepr))
      {
        RunSteps(old(history), ring.cap, inbox, n);
        match inbox[n] {
          case Event(ev) =>
            Take(ev);
          case Ask(req) =>
            var r := Handle(req);
            replies := replies + [r];
        }
      }
      assert inbox[..|inbox|] == inbox;
    }
  }

  datatype Inbox = Event(ev: ClassifiedEvent) | Ask(req: Request)

  const NO_EDGE := Views.EdgeView(0, 0, VFValid, RelUnknown, 0, 0, 0, 0, 0)

  /** The newest events a ring of this capacity still holds, at most limit of them. */
  function RecentOf(h: seq<ClassifiedEvent>, cap: nat, limit: int): seq<ClassifiedEvent> {
    var held := if |h| < cap then |h| else cap;
    EventRing.Newest(h, if limit <= 0 || limit > held then held else limit)
  }

  function EdgeDetailOf(h: seq<ClassifiedEvent>, cap: nat, from: Asn, to: Asn, limit: nat): Reply {
    var key, all := EdgeKey(from, to), EventRing.Traversing(RecentOf(h, cap, 0), from, to);
    if key in Replay(h).edges
    then EdgeReply(true, Views.EdgeViewOf(key, Replay(h).edges[key]), all[..if limit < |all| then limit else |all|])
    else EdgeReply(false, NO_EDGE, [])
  }

  ghost function StatsOf(h: seq<ClassifiedEvent>): StatsView {
    StatsView(CountersOf(h), |Replay(h).nodes|, |Replay(h).edges|, Views.TopOriginsOf(Replay(h).nodes))
  }

  /** What a request is answered after a history, by a ring of this capacity. */
  ghost function ReplyTo(h: seq<ClassifiedEvent>, cap: nat, req: Request): Reply {
    match req
    case TopologyRequest => TopologyReply(Views.TopologyOf(Replay(h)))
    case EventsRequest(limit) => EventsReply(RecentOf(h, cap, limit))
    case StatsRequest => StatsReply(StatsOf(h))
    case EdgeRequest(from, to, limit) => EdgeDetailOf(h, cap, from, to, limit)
    case FullRequest => FullReply(Views.TopologyOf(Replay(h)), RecentOf(h, cap, SNAPSHOT_EVENTS_LIMIT), StatsOf(h))
  }

  /** The events among what reached the writer. */
  function Taken(inbox: seq<Inbox>): seq<ClassifiedEvent> {
    if |inbox| == 0 then []
    else Taken(inbox[..|inbox| - 1]) + if Last(inbox).Event? then [Last(inbox).ev] else []
  }

  /** The answers to the requests, each after the events taken before it. */
  ghost function Replies(h: seq<ClassifiedEvent>, cap: nat, inbox: seq<Inbox>): seq<Reply> {
    if |inbox| == 0 then []
    else
      var front := inbox[..|inbox| - 1];
      Replies(h, cap, front) + if Last(inbox).Ask? then [ReplyTo(h + Taken(front), cap, Last(inbox).req)] else []
  }

  lemma RunStarts(h: seq<ClassifiedEvent>, cap: nat, inbox: seq<Inbox>)
    ensures h + Taken(inbox[..0]) == h && Replies(h, cap, inbox[..0]) == []
  {
  }

  lemma RunSteps(h: seq<ClassifiedEvent>, cap: nat, inbox: seq<Inbox>, n: nat)
    requires n < |inbox|
    ensures h + Taken(inbox[..n + 1]) == h + Taken(inbox[..n]) + if inbox[n].Event? then [inbox[n].ev] else []
    ensures inbox[n].Event? ==> h + Taken(inbox[..n]) + [inbox[n].ev] == h + Taken(inbox[..n + 1])
    ensures inbox[n].Ask? ==> h + Taken(inbox[..n + 1]) == h + Taken(inbox[..n])
    ensures Replies(h, cap, inbox[..n + 1]) ==
      Replies(h, cap, inbox[..n]) + if inbox[n].Ask? then [ReplyTo(h + Taken(inbox[..n]), cap, inbox[n].req)] else []
  {
    hide ReplyTo;
    assert inbox[..n + 1][..n] == inbox[..n];
  }
}
