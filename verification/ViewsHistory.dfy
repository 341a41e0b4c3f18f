/** What a reader of the aggregator's replies (internal/topology/views.go and ring.go) is told, in terms
    of the events that were taken. */
module ViewsHistory {
  import opened Bgp
  import opened GraphModel
  import opened GraphHistory
  import opened GraphRib
  import opened Views
  import Ordering
  import EventRing
  import RingCounters
  import A = Aggregator

  // ---- Rows ----

  /** The row of an AS says what the announcements it originated and the events that showed it say, and
      counts the prefixes it was the last to announce. */
  ghost predicate NodeTells(v: NodeView, h: seq<ClassifiedEvent>) {
    var evs, shown := OriginatedBy(h, v.asn), Showing(h, v.asn);
    && v.valid == CountRPKI(evs, RPKIValid)
    && v.invalid == CountRPKI(evs, RPKIInvalid)
    && v.notFound == CountRPKI(evs, RPKINotFound)
    && |shown| > 0 && v.firstSeen == shown[0].event.timestamp && v.lastSeen == Last(shown).event.timestamp
    && v.prefixCount == |set p | p in Replay(h).rib && LastOwner(h, p) == Some(v.asn)|
  }

  lemma NodeRow(h: seq<ClassifiedEvent>, a: Asn)
    requires a in Replay(h).nodes
    ensures NodeTells(NodeViewOf(a, Replay(h).nodes[a]), h)
    ensures OwnersAre(h, a, Replay(h).nodes[a].prefixes)
  {
    hide Replay, CountRPKI, OriginatedBy, Showing, LastOwner;
    NodeIsHistory(h, a);
    NodePrefixes(h, a);
  }

  /** The prefixes that a history leaves in the possession of an AS. */
  ghost predicate OwnersAre(h: seq<ClassifiedEvent>, a: Asn, prefixes: set<Prefix>) {
    && prefixes == (set p | p in Replay(h).rib && LastOwner(h, p) == Some(a))
    && forall p :: p in prefixes <==> LastOwner(h, p) == Some(a)
  }

  lemma NodePrefixes(h: seq<ClassifiedEvent>, a: Asn)
    requires a in Replay(h).nodes
    ensures OwnersAre(h, a, Replay(h).nodes[a].prefixes)
  {
    hide Replay, LastOwner;
    RibIsHistory(h);
    forall p
      ensures p in Replay(h).nodes[a].prefixes <==> LastOwner(h, p) == Some(a)
      ensures LastOwner(h, p) == Some(a) ==> p in Replay(h).rib
    {
      assert Holds(Replay(h).nodes, a, p) <==> RibAt(Replay(h).rib, p) == Some(a);
    }
  }

  /** The row of an adjacency says what the events that crossed it say. */
  ghost predicate EdgeTells(v: EdgeView, h: seq<ClassifiedEvent>) {
    var crossed := Traversals(h, EdgeKey(v.from, v.to));
    && |crossed| > 0
    && v.rel == RelForHop(crossed[0].hops, v.from, v.to)
    && v.count == |crossed|
    && v.leakCount == CountStatus(crossed, VFLeak)
    && v.hijackCount == CountStatus(crossed, VFHijack)
    && v.status == Last(crossed).vfStatus
    && v.lastEvent == Last(crossed).event.timestamp
    && v.lastEventID == Last(crossed).event.id
  }

  lemma EdgeRow(h: seq<ClassifiedEvent>, k: EdgeKey)
    requires k in Replay(h).edges
    ensures EdgeTells(EdgeViewOf(k, Replay(h).edges[k]), h)
  {
    hide Replay, Traversals;
    EdgeIsHistory(h, k);
  }

  // ---- The topology ----

  predicate NodesInOrder(s: seq<NodeView>) {
    forall i, j :: 0 <= i < j < |s| ==> s[i].asn < s[j].asn
  }

  predicate EdgesInOrder(s: seq<EdgeView>) {
    forall i, j :: 0 <= i < j < |s| ==> s[i].from < s[j].from || (s[i].from == s[j].from && s[i].to < s[j].to)
  }

  /** Main result: a topology reply lists exactly the ASes that some announcement showed, in the order of
      their numbers, and exactly the adjacencies that some announcement crossed, in the order of their
      ends, and every row tells what the events say. */
  lemma TopologyTellsHistory(h: seq<ClassifiedEvent>)
    ensures var t := TopologyOf(Replay(h));
      && NodesInOrder(t.nodes) && EdgesInOrder(t.edges)
      && (forall i :: 0 <= i < |t.nodes| ==> NodeTells(t.nodes[i], h))
      && (forall i :: 0 <= i < |t.edges| ==> EdgeTells(t.edges[i], h))
      && (forall a :: ShownBy(h, a) <==> exists i :: 0 <= i < |t.nodes| && t.nodes[i].asn == a)
      && (forall k :: Traversals(h, k) != [] <==> exists i :: 0 <= i < |t.edges| && EdgeKey(t.edges[i].from, t.edges[i].to) == k)
  {
    hide NodeTells, EdgeTells, Replay, ShownBy, Traversals, TopologyOf;
    var g := Replay(h);
    ListedNodes(g);
    ListedEdges(g);
    forall a
      ensures ShownBy(h, a) <==> a in g.nodes
      ensures a in g.nodes ==> NodeTells(NodeViewOf(a, g.nodes[a]), h)
    {
      NodeIsHistory(h, a);
      if a in g.nodes {
        NodeRow(h, a);
      }
    }
    forall k
      ensures Traversals(h, k) != [] <==> k in g.edges
      ensures k in g.edges ==> EdgeTells(EdgeViewOf(k, g.edges[k]), h)
    {
      EdgeIsHistory(h, k);
      if k in g.edges {
        EdgeRow(h, k);
      }
    }
  }

  lemma ListedNodes(g: Graph)
    ensures var s := TopologyOf(g).nodes;
      && NodesInOrder(s)
      && (forall i :: 0 <= i < |s| ==> s[i].asn in g.nodes && s[i] == NodeViewOf(s[i].asn, g.nodes[s[i].asn]))
      && (forall a :: a in g.nodes <==> exists i :: 0 <= i < |s| && s[i].asn == a)
  {
    var s, views := TopologyOf(g).nodes, NodeViews(g.nodes);
    forall i, j | 0 <= i < j < |s|
      ensures s[i].asn < s[j].asn
    {
      assert Ordering.Before(NodeRank(s[i]), NodeRank(s[j]));
    }
    forall i | 0 <= i < |s|
      ensures s[i].asn in g.nodes && s[i] == NodeViewOf(s[i].asn, g.nodes[s[i].asn])
    {
      assert s[i] in views;
    }
    forall a | a in g.nodes
      ensures exists i :: 0 <= i < |s| && s[i].asn == a
    {
      assert NodeViewOf(a, g.nodes[a]) in views && NodeViewOf(a, g.nodes[a]) in s;
    }
  }

  lemma ListedEdges(g: Graph)
    ensures var s := TopologyOf(g).edges;
      && EdgesInOrder(s)
      && (forall i :: 0 <= i < |s| ==> EdgeKey(s[i].from, s[i].to) in g.edges)
      && (forall i :: 0 <= i < |s| ==> s[i] == EdgeViewOf(EdgeKey(s[i].from, s[i].to), g.edges[EdgeKey(s[i].from, s[i].to)]))
      && (forall k :: k in g.edges <==> exists i :: 0 <= i < |s| && EdgeKey(s[i].from, s[i].to) == k)
  {
    var s, views := TopologyOf(g).edges, EdgeViews(g.edges);
    forall i, j | 0 <= i < j < |s|
      ensures s[i].from < s[j].from || (s[i].from == s[j].from && s[i].to < s[j].to)
    {
      assert Ordering.Before(EdgeRank(s[i]), EdgeRank(s[j]));
    }
    forall i | 0 <= i < |s|
      ensures EdgeKey(s[i].from, s[i].to) in g.edges
      ensures s[i] == EdgeViewOf(EdgeKey(s[i].from, s[i].to), g.edges[EdgeKey(s[i].from, s[i].to)])
    {
      assert s[i] in views;
    }
    forall k | k in g.edges
      ensures exists i :: 0 <= i < |s| && EdgeKey(s[i].from, s[i].to) == k
    {
      assert EdgeViewOf(k, g.edges[k]) in views && EdgeViewOf(k, g.edges[k]) in s;
    }
  }

  // ---- The top origins ----

  /** The row of a top origin says what the announcements it originated say: it is Invalid if one of them
      was, Valid if none was Invalid and one Valid. */
  ghost predicate OriginTells(v: OriginStat, h: seq<ClassifiedEvent>) {
    var evs := OriginatedBy(h, v.asn);
    && v.valid == CountRPKI(evs, RPKIValid)
    && v.invalid == CountRPKI(evs, RPKIInvalid)
    && v.notFound == CountRPKI(evs, RPKINotFound)
    && (v.rpki == RPKIInvalid <==> exists e :: e in evs && e.rpkiStatus == RPKIInvalid)
    && (v.rpki == RPKINotFound <==> forall e :: e in evs ==> e.rpkiStatus == RPKINotFound)
    && v.throughput == RingCounters.SparkOf(Times(evs)).window
    && v.prefixCount == |set p | p in Replay(h).rib && LastOwner(h, p) == Some(v.asn)|
  }

  lemma {:induction false} CountedSomewhere(evs: seq<ClassifiedEvent>, s: RPKIStatus)
    ensures CountRPKI(evs, s) > 0 <==> exists e :: e in evs && e.rpkiStatus == s
  {
    if |evs| > 0 {
      var front := evs[..|evs| - 1];
      CountedSomewhere(front, s);
      assert forall e :: e in evs <==> e in front || e == Last(evs);
    }
  }

  lemma OriginRow(h: seq<ClassifiedEvent>, a: Asn)
    requires a in Replay(h).nodes
    ensures OriginTells(OriginStatOf(a, Replay(h).nodes[a]), h)
    ensures Replay(h).nodes[a].events == |OriginatedBy(h, a)|
  {
    hide Replay, CountRPKI, OriginatedBy, LastOwner, RingCounters.SparkOf;
    NodeIsHistory(h, a);
    NodePrefixes(h, a);
    CountedSomewhere(OriginatedBy(h, a), RPKIInvalid);
    CountedSomewhere(OriginatedBy(h, a), RPKIValid);
  }

  /** a comes before b among the top origins. */
  predicate Busier(h: seq<ClassifiedEvent>, a: Asn, b: Asn) {
    || |OriginatedBy(h, a)| > |OriginatedBy(h, b)|
    || (|OriginatedBy(h, a)| == |OriginatedBy(h, b)| && a < b)
  }

  /** Whoever is left out comes after all forty. */
  ghost predicate Omits(top: seq<OriginStat>, h: seq<ClassifiedEvent>, a: Asn) {
    (forall i :: 0 <= i < |top| ==> top[i].asn != a) ==> |top| == 40 && forall i :: 0 <= i < |top| ==> Busier(h, top[i].asn, a)
  }

  /** Main result: the top origins are listed by the number of announcements they originated, ties by AS
      number, forty at most and all if there are fewer; whoever is left out comes after all of them. */
  lemma TopOriginsTellHistory(h: seq<ClassifiedEvent>)
    ensures var top := TopOriginsOf(Replay(h).nodes);
      && |top| <= 40
      && (forall i :: 0 <= i < |top| ==> OriginTells(top[i], h) && |OriginatedBy(h, top[i].asn)| > 0)
      && (forall i, j :: 0 <= i < j < |top| ==> Busier(h, top[i].asn, top[j].asn))
      && (forall a :: OriginatedBy(h, a) != [] ==> Omits(top, h, a))
  {
    hide Replay, OriginatedBy, OriginTells, TopOriginsOf, OriginStatOf, Omits;
    var nodes := Replay(h).nodes;
    TopInOrder(nodes);
    forall a | a in nodes
      ensures OriginTells(OriginStatOf(a, nodes[a]), h) && nodes[a].events == |OriginatedBy(h, a)|
    {
      OriginRow(h, a);
    }
    forall a | OriginatedBy(h, a) != []
      ensures Omits(TopOriginsOf(nodes), h, a)
    {
      LeavesOut(h, a);
    }
  }

  lemma LeavesOut(h: seq<ClassifiedEvent>, a: Asn)
    requires OriginatedBy(h, a) != []
    ensures Omits(TopOriginsOf(Replay(h).nodes), h, a)
  {
    hide Replay, OriginatedBy, OriginTells, TopOriginsOf, OriginStatOf;
    var nodes, top := Replay(h).nodes, TopOriginsOf(Replay(h).nodes);
    NodeIsHistory(h, a);
    OriginRow(h, a);
    if forall i :: 0 <= i < |top| ==> top[i].asn != a {
      LeftOut(nodes, a);
      forall i | 0 <= i < |top|
        ensures Busier(h, top[i].asn, a)
      {
        OriginRow(h, top[i].asn);
      }
    }
  }

  /** a comes before b by what their nodes say. */
  predicate Ahead(nodes: map<Asn, Node>, a: Asn, b: Asn)
    requires a in nodes && b in nodes
  {
    nodes[a].events > nodes[b].events || (nodes[a].events == nodes[b].events && a < b)
  }

  /** The rows are those of the busiest, in the same order. */
  lemma TopRows(nodes: map<Asn, Node>)
    ensures var all, top := Ordering.SortedBy(Activities(nodes), ActivityRank), TopOriginsOf(nodes);
      && |top| == (if |all| > 40 then 40 else |all|)
      && forall i :: 0 <= i < |top| ==> top[i].asn == all[i].asn && all[i].asn in nodes && top[i] == OriginStatOf(all[i].asn, nodes[all[i].asn])
  {
    hide Ordering.SortedBy;
  }

  lemma TopActivities(nodes: map<Asn, Node>)
    ensures var all := Ordering.SortedBy(Activities(nodes), ActivityRank);
      && (forall i :: 0 <= i < |all| ==> all[i].asn in nodes && nodes[all[i].asn].events == all[i].events > 0)
      && (forall i, j :: 0 <= i < j < |all| ==> all[i].asn in nodes && all[j].asn in nodes && Ahead(nodes, all[i].asn, all[j].asn))
      && (forall a :: a in nodes && nodes[a].events > 0 ==> exists k :: 0 <= k < |all| && all[k].asn == a)
  {
    hide Ordering.SortedBy;
    var all := Ordering.SortedBy(Activities(nodes), ActivityRank);
    forall i | 0 <= i < |all|
      ensures all[i].asn in nodes && nodes[all[i].asn].events == all[i].events > 0
    {
      assert all[i] in Activities(nodes);
    }
    forall i, j | 0 <= i < j < |all|
      ensures all[i].asn in nodes && all[j].asn in nodes && Ahead(nodes, all[i].asn, all[j].asn)
    {
      assert Ordering.Before(ActivityRank(all[i]), ActivityRank(all[j]));
    }
    forall a | a in nodes && nodes[a].events > 0
      ensures exists k :: 0 <= k < |all| && all[k].asn == a
    {
      assert Activity(a, nodes[a].events) in Activities(nodes) && Activity(a, nodes[a].events) in all;
    }
  }

  lemma TopInOrder(nodes: map<Asn, Node>)
    ensures var top := TopOriginsOf(nodes);
      && |top| <= 40
      && (forall i :: 0 <= i < |top| ==> top[i].asn in nodes && nodes[top[i].asn].events > 0 && top[i] == OriginStatOf(top[i].asn, nodes[top[i].asn]))
      && (forall i, j :: 0 <= i < j < |top| ==> Ahead(nodes, top[i].asn, top[j].asn))
  {
    hide Ordering.SortedBy, TopOriginsOf, OriginStatOf, Ahead, ActivityRank, Activities;
    TopRows(nodes);
    TopActivities(nodes);
  }

  lemma LeftOut(nodes: map<Asn, Node>, a: Asn)
    requires a in nodes && nodes[a].events > 0
    requires forall i :: 0 <= i < |TopOriginsOf(nodes)| ==> TopOriginsOf(nodes)[i].asn != a
    ensures var top := TopOriginsOf(nodes);
      |top| == 40 && forall i :: 0 <= i < |top| ==> top[i].asn in nodes && Ahead(nodes, top[i].asn, a)
  {
    hide Ordering.SortedBy, TopOriginsOf, OriginStatOf, Ahead, ActivityRank, Activities;
    TopRows(nodes);
    TopActivities(nodes);
    var all := Ordering.SortedBy(Activities(nodes), ActivityRank);
    var k :| 0 <= k < |all| && all[k].asn == a;
    assert k >= |TopOriginsOf(nodes)|;
  }

  // ---- The events ----

  /** The newest events first: as many as asked for, of those the ring still holds; all of these if the
      number asked for is not positive. A full snapshot asks for two hundred. */
  lemma NewestEvents(h: seq<ClassifiedEvent>, cap: nat, limit: int)
    ensures var r, held := A.RecentOf(h, cap, limit), if |h| < cap then |h| else cap;
      && |r| == (if 0 < limit < held then limit else held)
      && (forall i :: 0 <= i < |r| ==> r[i] == h[|h| - 1 - i])
    ensures A.ReplyTo(h, cap, A.EventsRequest(limit)) == A.EventsReply(A.RecentOf(h, cap, limit))
    ensures A.ReplyTo(h, cap, A.FullRequest) ==
      A.FullReply(TopologyOf(Replay(h)), A.RecentOf(h, cap, 200), A.StatsOf(h))
  {
    hide Replay, TopologyOf, A.StatsOf;
  }

  lemma {:induction false} TraversingIs(evs: seq<ClassifiedEvent>, from: Asn, to: Asn)
    ensures forall e :: e in EventRing.Traversing(evs, from, to) <==> e in evs && EventRing.HasEdge(e.event.asPath, from, to)
  {
    if |evs| > 0 {
      hide EventRing.HasEdge;
      var front := evs[..|evs| - 1];
      TraversingIs(front, from, to);
      assert forall e :: e in evs <==> e in front || e == Last(evs);
    }
  }

  lemma {:induction false} CrossesSomewhere(ev: ClassifiedEvent, n: nat, key: EdgeKey)
    requires n == 0 || n < |ev.event.asPath|
    ensures ev in Crossings(ev, n, key) <==> exists i :: 0 <= i < n && IsAt(ev.event.asPath, i, key)
  {
    if n > 0 {
      CrossesSomewhere(ev, n - 1, key);
    }
  }

  lemma CrossesByEdge(ev: ClassifiedEvent, key: EdgeKey)
    ensures ev in Crossings(ev, Adjacencies(ev.event.asPath), key) <==>
      key.from != key.to && EventRing.HasEdge(ev.event.asPath, key.from, key.to)
  {
    hide Crossings;
    var p := ev.event.asPath;
    CrossesSomewhere(ev, Adjacencies(p), key);
    if key.from != key.to && EventRing.HasEdge(p, key.from, key.to) {
      var i :| 0 <= i < |p| - 1 && p[i] == key.from && p[i + 1] == key.to;
      assert IsAt(p, i, key);
    }
    if exists i :: 0 <= i < Adjacencies(p) && IsAt(p, i, key) {
      var i :| 0 <= i < Adjacencies(p) && IsAt(p, i, key);
      assert p[i] == key.from && p[i + 1] == key.to;
    }
  }

  lemma {:induction false} TraversalsAre(h: seq<ClassifiedEvent>, key: EdgeKey)
    ensures forall e :: e in Traversals(h, key) <==>
      e in h && e.event.kind == Announce && key.from != key.to && EventRing.HasEdge(e.event.asPath, key.from, key.to)
  {
    if |h| > 0 {
      hide EventRing.HasEdge, Crossings;
      var front := h[..|h| - 1];
      TraversalsAre(front, key);
      CrossesByEdge(Last(h), key);
      OnlyItself(Last(h), key);
      assert forall e :: e in h <==> e in front || e == Last(h);
    }
  }

  lemma OnlyItself(ev: ClassifiedEvent, key: EdgeKey)
    ensures forall e :: e in Crossings(ev, Adjacencies(ev.event.asPath), key) ==> e == ev
  {
  }

  /** Main result: asked for an adjacency, the aggregator finds it exactly when something crossed it, gives
      its figures, and lists of the announcements only such as crossed it, of those that the ring holds
      every one if the limit allows. */
  lemma EdgeDetailTellsHistory(h: seq<ClassifiedEvent>, cap: nat, from: Asn, to: Asn, limit: nat)
    ensures var r, crossed, held := A.EdgeDetailOf(h, cap, from, to, limit), Traversals(h, EdgeKey(from, to)), A.RecentOf(h, cap, 0);
      && r.EdgeReply?
      && (r.found <==> |crossed| > 0)
      && (r.found ==> r.edge.from == from && r.edge.to == to && EdgeTells(r.edge, h))
      && (!r.found ==> r.traversing == [])
      && (forall e :: e in r.traversing ==> e in held && (e.event.kind == Announce ==> e in crossed))
      && (limit >= |held| ==> forall e :: e in held && e in crossed ==> e in r.traversing)
      && |r.traversing| <= limit
  {
    hide Replay, Traversals, EventRing.Traversing, A.RecentOf, EdgeTells, EventRing.HasEdge;
    var key, held := EdgeKey(from, to), A.RecentOf(h, cap, 0);
    EdgeIsHistory(h, key);
    TraversalsAre(h, key);
    TraversingIs(held, from, to);
    HeldAreTaken(h, cap);
    if key in Replay(h).edges {
      EdgeRow(h, key);
      EdgeCountsBounded(h, key);
    }
  }

  lemma HeldAreTaken(h: seq<ClassifiedEvent>, cap: nat)
    ensures forall e :: e in A.RecentOf(h, cap, 0) ==> e in h
  {
  }
}
