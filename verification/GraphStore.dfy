/** The browser's copy of the edge map (frontend/src/lib/graphStore.ts), updated in place from
    snapshots and events, and its agreement with the aggregator's. */
module GraphStore {
  import opened Bgp
  import opened GraphModel
  import C = Classify
  import Tries
  import V = ValleyFree
  import Views
  import H = GraphHistory

  /** What a link says: the relationship, the latest status and the counts. */
  datatype Link = Link(rel: RelStatus, status: VFStatus, count: nat, leakCount: nat, hijackCount: nat, lastSeq: nat)

  type Links = map<EdgeKey, Link>

  /** One edge of a topology snapshot. */
  datatype EdgeDto = EdgeDto(key: EdgeKey, rel: RelStatus, status: VFStatus, count: nat, leakCount: nat, hijackCount: nat)

  /** A topology snapshot, of which the reducer keeps the ASes and the edges. */
  datatype TopologyDto = TopologyDto(asns: seq<Asn>, edges: seq<EdgeDto>)

  // ---- The reducers on values ----

  function NewLink(key: EdgeKey, ev: ClassifiedEvent): Link {
    Link(RelForHop(ev.hops, key.from, key.to), ev.vfStatus, 0, 0, 0, ev.event.seqNo)
  }

  /** The link after one more traversal; an unknown relationship is filled in when the event knows it. */
  function Touched(l: Link, key: EdgeKey, ev: ClassifiedEvent): Link {
    Link(if l.rel == RelUnknown then RelForHop(ev.hops, key.from, key.to) else l.rel,
         ev.vfStatus,
         l.count + 1,
         l.leakCount + if ev.vfStatus == VFLeak then 1 else 0,
         l.hijackCount + if ev.vfStatus == VFHijack then 1 else 0,
         ev.event.seqNo)
  }

  function TouchAt(links: Links, ev: ClassifiedEvent, i: nat): Links
    requires i + 1 < |ev.event.asPath|
  {
    var from, to := ev.event.asPath[i], ev.event.asPath[i + 1];
    if from == to then links
    else
      var key := EdgeKey(from, to);
      links[key := Touched(if key in links then links[key] else NewLink(key, ev), key, ev)]
  }

  function TouchAll(links: Links, ev: ClassifiedEvent, n: nat): Links
    requires n == 0 || n < |ev.event.asPath|
  {
    if n == 0 then links else TouchAt(TouchAll(links, ev, n - 1), ev, n - 1)
  }

  function AfterEvent(links: Links, ev: ClassifiedEvent): Links {
    if ev.event.kind != Announce then links else TouchAll(links, ev, Adjacencies(ev.event.asPath))
  }

  function AfterEvents(links: Links, evs: seq<ClassifiedEvent>): Links {
    if |evs| == 0 then links else AfterEvent(AfterEvents(links, evs[..|evs| - 1]), Last(evs))
  }

  function DtoLink(d: EdgeDto, lastSeq: nat): Link {
    Link(d.rel, d.status, d.count, d.leakCount, d.hijackCount, lastSeq)
  }

  function AfterDto(links: Links, d: EdgeDto): Links {
    links[d.key := DtoLink(d, if d.key in links then links[d.key].lastSeq else 0)]
  }

  function AfterTopology(links: Links, dtos: seq<EdgeDto>): Links {
    if |dtos| == 0 then links else AfterDto(AfterTopology(links, dtos[..|dtos| - 1]), Last(dtos))
  }

  lemma DtoLanded(links: Links, d: EdgeDto)
    ensures AfterDto(links, d) == links[d.key := DtoLink(d, if d.key in links then links[d.key].lastSeq else 0)]
  {
  }

  // ---- The number of the last event ----

  /** A link exists if something crossed it, and then has the number of the last event that did. */
  predicate SeqAt(links: Links, key: EdgeKey, crossed: seq<ClassifiedEvent>) {
    if key in links then |crossed| > 0 && links[key].lastSeq == Last(crossed).event.seqNo else crossed == []
  }

  lemma {:induction false} PathSeqs(links: Links, ev: ClassifiedEvent, n: nat, key: EdgeKey, before: seq<ClassifiedEvent>)
    requires n == 0 || n < |ev.event.asPath|
    requires SeqAt(links, key, before)
    ensures SeqAt(TouchAll(links, ev, n), key, before + H.Crossings(ev, n, key))
  {
    if n == 0 {
      assert before + [] == before;
    } else {
      PathSeqs(links, ev, n - 1, key, before);
      var so := before + H.Crossings(ev, n - 1, key);
      assert before + H.Crossings(ev, n, key) == so + if H.IsAt(ev.event.asPath, n - 1, key) then [ev] else [];
    }
  }

  /** After any events a link the browser made has the number of the last event that crossed it. */
  lemma {:induction false} LastSeqIsHistory(evs: seq<ClassifiedEvent>, key: EdgeKey)
    ensures SeqAt(AfterEvents(map[], evs), key, H.Traversals(evs, key))
  {
    if |evs| > 0 {
      hide SeqAt, TouchAll;
      var front, ev := evs[..|evs| - 1], Last(evs);
      LastSeqIsHistory(front, key);
      if ev.event.kind == Announce {
        PathSeqs(AfterEvents(map[], front), ev, Adjacencies(ev.event.asPath), key, H.Traversals(front, key));
      } else {
        assert H.Traversals(front, key) + [] == H.Traversals(front, key);
      }
    }
  }

  // ---- The reducers in place ----

  class SimLink {
    const key: EdgeKey
    var rel: RelStatus
    var status: VFStatus
    var count: nat
    var leakCount: nat
    var hijackCount: nat
    var lastSeq: nat

    constructor (key: EdgeKey, v: Link)
      ensures this.key == key && Value() == v
    {
      this.key := key;
      rel, status, count, leakCount, hijackCount, lastSeq := v.rel, v.status, v.count, v.leakCount, v.hijackCount, v.lastSeq;
    }

    function Value(): Link
      reads this
    {
      Link(rel, status, count, leakCount, hijackCount, lastSeq)
    }

    method Take(d: EdgeDto)
      modifies this
      ensures Value() == DtoLink(d, old(Value()).lastSeq)
    {
      status, rel, count := d.status, d.rel, d.count;
      leakCount, hijackCount := d.leakCount, d.hijackCount;
    }

    method Touch(ev: ClassifiedEvent)
      modifies this
      ensures Value() == Touched(old(Value()), key, ev)
    {
      count := count + 1;
      if ev.vfStatus == VFLeak {
        leakCount := leakCount + 1;
      } else if ev.vfStatus == VFHijack {
        hijackCount := hijackCount + 1;
      }
      status := ev.vfStatus;
      lastSeq := ev.event.seqNo;
      if rel == RelUnknown {
        var r := RelForHop(ev.hops, key.from, key.to);
        if r != RelUnknown {
          rel := r;
        }
      }
    }
  }

  class GraphState {
    var nodes: set<Asn>
    var links: map<EdgeKey, SimLink>
    ghost var repr: set<SimLink>
    ghost var value: Links

    ghost predicate Valid()
      reads this, repr
    {
      && links.Keys == value.Keys
      && forall k :: k in links ==> links[k] in repr && links[k].key == k && links[k].Value() == value[k]
    }

    constructor ()
      ensures Valid() && value == map[] && nodes == {} && repr == {}
    {
      nodes, links, repr, value := {}, map[], {}, map[];
    }

    /** One more traversal of a link the graph has. */
    method Refresh(key: EdgeKey, ev: ClassifiedEvent)
      requires Valid() && key in links
      modifies this`value, repr
      ensures Valid()
      ensures value == old(value)[key := Touched(old(value)[key], key, ev)]
    {
      hide Touched, NewLink, SimLink.Value;
      var l := links[key];
      l.Touch(ev);
      value := value[key := Touched(value[key], key, ev)];
    }

    /** A link the graph has takes the snapshot's figures and keeps its last event. */
    method Overwrite(d: EdgeDto)
      requires Valid() && d.key in links
      modifies this`value, repr
      ensures Valid() && value == AfterDto(old(value), d)
    {
      hide AfterDto, SimLink.Value;
      var l := links[d.key];
      l.Take(d);
      value := value[d.key := DtoLink(d, value[d.key].lastSeq)];
      DtoLanded(old(value), d);
    }

    /** One adjacency of an announced path; reports whether it made a new link. */
    method TouchLink(key: EdgeKey, ev: ClassifiedEvent) returns (made: bool)
      requires Valid()
      modifies this`links, this`repr, this`value, repr
      ensures Valid() && fresh(repr - old(repr))
      ensures made <==> key !in old(value)
      ensures value == old(value)[key := Touched(if key in old(value) then old(value)[key] else NewLink(key, ev), key, ev)]
    {
      hide Touched, NewLink, SimLink.Value;
      made := key !in links;
      if made {
        AddLink(key, NewLink(key, ev));
      }
      Refresh(key, ev);
    }

    method AddLink(key: EdgeKey, v: Link)
      requires Valid() && key !in links
      modifies this`links, this`repr, this`value
      ensures Valid() && fresh(repr - old(repr))
      ensures key in links && value == old(value)[key := v]
    {
      var l := new SimLink(key, v);
      links, repr, value := links[key := l], repr + {l}, value[key := v];
    }

    /** Folds one event into the graph; reports whether a node or a link is new. */
    method ApplyEvent(ev: ClassifiedEvent) returns (changed: bool)
      requires Valid()
      modifies this, repr
      ensures Valid() && fresh(repr - old(repr))
      ensures value == AfterEvent(old(value), ev)
      ensures nodes == old(nodes) + if ev.event.kind == Announce then set a | a in ev.event.asPath else {}
      ensures changed <==> nodes != old(nodes) || value.Keys != old(value).Keys
    {
      hide Touched, NewLink;
      if ev.event.kind != Announce {
        return false;
      }
      var newNode := SeeAll(ev.event.asPath);
      var newLink := TouchPath(ev);
      changed := newNode || newLink;
    }

    /** Every AS listed has a node; reports whether one is new. */
    method SeeAll(asns: seq<Asn>) returns (changed: bool)
      modifies this`nodes
      ensures nodes == old(nodes) + set a | a in asns
      ensures changed <==> nodes != old(nodes)
    {
      changed := false;
      for i := 0 to |asns|
        invariant nodes == old(nodes) + (set a | a in asns[..i])
        invariant changed <==> nodes != old(nodes)
      {
        assert asns[..i + 1] == asns[..i] + [asns[i]];
        if asns[i] !in nodes {
          nodes := nodes + {asns[i]};
          changed := true;
        }
      }
      assert asns[..|asns|] == asns;
    }

    /** The adjacencies of the path, one by one. */
    method TouchPath(ev: ClassifiedEvent) returns (changed: bool)
      requires Valid()
      modifies this`links, this`repr, this`value, repr
      ensures Valid() && fresh(repr - old(repr))
      ensures value == TouchAll(old(value), ev, Adjacencies(ev.event.asPath))
      ensures changed <==> value.Keys != old(value).Keys
    {
      hide Touched, NewLink;
      var path := ev.event.asPath;
      changed := false;
      for i := 0 to Adjacencies(path)
        invariant Valid() && fresh(repr - old(repr))
        invariant value == TouchAll(old(value), ev, i)
        invariant old(value).Keys <= value.Keys
        invariant changed <==> value.Keys != old(value).Keys
      {
        if path[i] == path[i + 1] {
          continue;
        }
        var made := TouchLink(EdgeKey(path[i], path[i + 1]), ev);
        changed := changed || made;
      }
    }

    /** Seeds or refreshes the graph from a snapshot; reports whether a node or a link is new. */
    method ApplyTopology(t: TopologyDto) returns (changed: bool)
      requires Valid()
      modifies this, repr
      ensures Valid() && fresh(repr - old(repr))
      ensures value == AfterTopology(old(value), t.edges)
      ensures nodes == old(nodes) + set a | a in t.asns
      ensures changed <==> nodes != old(nodes) || value.Keys != old(value).Keys
    {
      var newNode := SeeAll(t.asns);
      var newLink := TakeEdges(t.edges);
      changed := newNode || newLink;
    }

    method TakeEdges(dtos: seq<EdgeDto>) returns (changed: bool)
      requires Valid()
      modifies this`links, this`repr, this`value, repr
      ensures Valid() && fresh(repr - old(repr))
      ensures value == AfterTopology(old(value), dtos)
      ensures changed <==> value.Keys != old(value).Keys
    {
      hide AfterDto, SimLink.Value;
      changed := false;
      for i := 0 to |dtos|
        invariant Valid() && fresh(repr - old(repr))
        invariant value == AfterTopology(old(value), dtos[..i])
        invariant old(value).Keys <= value.Keys
        invariant changed <==> value.Keys != old(value).Keys
      {
        var d := dtos[i];
        ghost var before := value;
        assert dtos[..i + 1][..i] == dtos[..i];
        if d.key !in links {
          AddLink(d.key, DtoLink(d, 0));
          DtoLanded(before, d);
          changed := true;
        } else {
          Overwrite(d);
        }
      }
      assert dtos[..|dtos|] == dtos;
    }
  }

  // ---- The mirror ----

  /** The link shows what the edge holds, and both have the relationship the lookup gives. */
  predicate Shows(l: Link, e: Edge, key: EdgeKey, rl: V.RelLookup) {
    && l.rel == e.rel == rl(key.from, key.to)
    && l.status == e.status
    && l.count == e.count && l.leakCount == e.leakCount && l.hijackCount == e.hijackCount
  }

  ghost predicate Mirrors(links: Links, edges: map<EdgeKey, Edge>, rl: V.RelLookup) {
    && links.Keys == edges.Keys
    && forall k :: k in links ==> Shows(links[k], edges[k], k, rl)
  }

  /** The event's hops are those the classifier makes of its path with this lookup. */
  ghost predicate HopsFrom(ev: ClassifiedEvent, rl: V.RelLookup) {
    ev.event.kind == Announce ==> HopsMatch(ev.hops, V.Hops(V.Dedupe(ev.event.asPath), rl))
  }

  /** The same adjacencies and relationships, whatever hop is flagged. */
  predicate HopsMatch(a: seq<PathHop>, b: seq<PathHop>) {
    && |a| == |b|
    && forall k :: 0 <= k < |a| ==> a[k].from == b[k].from && a[k].to == b[k].to && a[k].rel == b[k].rel
  }

  lemma {:induction false} SameRelForHop(a: seq<PathHop>, b: seq<PathHop>, from: Asn, to: Asn)
    requires HopsMatch(a, b)
    ensures RelForHop(a, from, to) == RelForHop(b, from, to)
  {
    if |a| > 0 {
      SameRelForHop(a[1..], b[1..], from, to);
    }
  }

  /** The hops of a path give a listed adjacency the relationship of the lookup. */
  lemma {:induction false} ListedRel(hops: seq<PathHop>, rl: V.RelLookup, from: Asn, to: Asn, j: nat)
    requires forall k :: 0 <= k < |hops| ==> hops[k].rel == rl(hops[k].from, hops[k].to)
    requires j < |hops| && hops[j].from == from && hops[j].to == to
    ensures RelForHop(hops, from, to) == rl(from, to)
  {
    if !(hops[0].from == from && hops[0].to == to) {
      ListedRel(hops[1..], rl, from, to, j - 1);
    }
  }

  /** Prepending hides no real adjacency. */
  lemma {:induction false} AdjacencySurvives(path: seq<Asn>, i: nat) returns (j: nat)
    requires i + 1 < |path| && path[i] != path[i + 1]
    ensures j + 1 < |V.Dedupe(path)| && V.Dedupe(path)[j] == path[i] && V.Dedupe(path)[j + 1] == path[i + 1]
  {
    var front := path[..|path| - 1];
    if i + 2 < |path| {
      j := AdjacencySurvives(front, i);
    } else {
      assert Last(V.Dedupe(front)) == path[i];
      j := |V.Dedupe(front)| - 1;
    }
  }

  lemma CrossedRel(ev: ClassifiedEvent, rl: V.RelLookup, i: nat)
    requires HopsFrom(ev, rl) && ev.event.kind == Announce
    requires i + 1 < |ev.event.asPath| && ev.event.asPath[i] != ev.event.asPath[i + 1]
    ensures RelForHop(ev.hops, ev.event.asPath[i], ev.event.asPath[i + 1]) == rl(ev.event.asPath[i], ev.event.asPath[i + 1])
  {
    hide V.Dedupe;
    var s := V.Dedupe(ev.event.asPath);
    var j := AdjacencySurvives(ev.event.asPath, i);
    ListedRel(V.Hops(s, rl), rl, s[j], s[j + 1], j);
    SameRelForHop(ev.hops, V.Hops(s, rl), s[j], s[j + 1]);
  }

  lemma AdjacencyMirrors(links: Links, g: Graph, ev: ClassifiedEvent, rl: V.RelLookup, i: nat)
    requires HopsFrom(ev, rl) && ev.event.kind == Announce && i + 1 < |ev.event.asPath|
    requires Mirrors(links, g.edges, rl)
    ensures Mirrors(TouchAt(links, ev, i), ApplyAdjacency(g, ev, i).edges, rl)
  {
    hide HopsFrom, RelForHop, Seen, LastSamples;
    if ev.event.asPath[i] != ev.event.asPath[i + 1] {
      CrossedRel(ev, rl, i);
    }
  }

  lemma {:induction false} PathMirrors(links: Links, g: Graph, ev: ClassifiedEvent, rl: V.RelLookup, n: nat)
    requires HopsFrom(ev, rl) && ev.event.kind == Announce && (n == 0 || n < |ev.event.asPath|)
    requires Mirrors(links, g.edges, rl)
    ensures Mirrors(TouchAll(links, ev, n), ApplyEdges(g, ev, n).edges, rl)
  {
    if n > 0 {
      hide Mirrors, TouchAt, ApplyAdjacency, HopsFrom;
      PathMirrors(links, g, ev, rl, n - 1);
      AdjacencyMirrors(TouchAll(links, ev, n - 1), ApplyEdges(g, ev, n - 1), ev, rl, n - 1);
    }
  }

  lemma EventMirrors(links: Links, g: Graph, ev: ClassifiedEvent, rl: V.RelLookup)
    requires HopsFrom(ev, rl) && Mirrors(links, g.edges, rl)
    ensures Mirrors(AfterEvent(links, ev), Apply(g, ev).edges, rl)
  {
    hide Mirrors, TouchAll, ApplyEdges, HopsFrom, ApplyOrigin, ApplyRIB;
    OriginAndRIB(g, ev);
    var g1 := if ev.event.kind == Announce && ev.event.originAS != 0 then ApplyOrigin(g, ev) else g;
    if ev.event.kind == Announce {
      PathMirrors(links, g1, ev, rl, Adjacencies(ev.event.asPath));
      OriginAndRIB(ApplyEdges(g1, ev, Adjacencies(ev.event.asPath)), ev);
    }
  }

  lemma OriginAndRIB(g: Graph, ev: ClassifiedEvent)
    ensures ApplyOrigin(g, ev).edges == g.edges && ApplyRIB(g, ev).edges == g.edges
  {
  }

  // ---- From a snapshot on ----

  function DtoOf(key: EdgeKey, e: Edge): EdgeDto {
    EdgeDto(key, e.rel, e.status, e.count, e.leakCount, e.hijackCount)
  }

  /** The snapshot lists every edge, each as it is, in any order. */
  ghost predicate IsSnapshot(dtos: seq<EdgeDto>, edges: map<EdgeKey, Edge>) {
    && (forall d :: d in dtos ==> d.key in edges && d == DtoOf(d.key, edges[d.key]))
    && (forall k :: k in edges ==> DtoOf(k, edges[k]) in dtos)
  }

  /** The edges of a graph that a list names. */
  function Listed(dtos: seq<EdgeDto>, edges: map<EdgeKey, Edge>): map<EdgeKey, Edge> {
    map k | k in edges && DtoOf(k, edges[k]) in dtos :: edges[k]
  }

  lemma {:induction false} LoadMirrors(dtos: seq<EdgeDto>, edges: map<EdgeKey, Edge>, rl: V.RelLookup)
    requires forall d :: d in dtos ==> d.key in edges && d == DtoOf(d.key, edges[d.key])
    requires forall k :: k in edges ==> edges[k].rel == rl(k.from, k.to)
    ensures Mirrors(AfterTopology(map[], dtos), Listed(dtos, edges), rl)
  {
    if |dtos| > 0 {
      var front, d := dtos[..|dtos| - 1], Last(dtos);
      LoadMirrors(front, edges, rl);
      assert forall x :: x in dtos <==> x in front || x == d;
      assert Listed(dtos, edges) == Listed(front, edges)[d.key := edges[d.key]];
    }
  }

  /** The relationships the backend holds are those of the lookup. */
  lemma {:induction false} EdgesHaveRel(h: seq<ClassifiedEvent>, rl: V.RelLookup)
    requires forall ev :: ev in h ==> HopsFrom(ev, rl)
    ensures Mirrors(AfterEvents(map[], h), Replay(h).edges, rl)
  {
    if |h| > 0 {
      hide Apply, AfterEvent, Mirrors, HopsFrom;
      EdgesHaveRel(h[..|h| - 1], rl);
      EventMirrors(AfterEvents(map[], h[..|h| - 1]), Replay(h[..|h| - 1]), Last(h), rl);
    }
  }

  /** An empty graph loaded with any listing of the backend's edges, and fed any further events. */
  lemma {:induction false} ListingMirrors(h: seq<ClassifiedEvent>, dtos: seq<EdgeDto>, more: seq<ClassifiedEvent>, rl: V.RelLookup)
    requires forall ev :: ev in h + more ==> HopsFrom(ev, rl)
    requires IsSnapshot(dtos, Replay(h).edges)
    ensures Mirrors(AfterEvents(AfterTopology(map[], dtos), more), Replay(h + more).edges, rl)
  {
    hide Apply, AfterEvent, HopsFrom, AfterTopology, Replay;
    if |more| == 0 {
      assert h + more == h;
      SnapshotMirrors(h, dtos, rl);
    } else {
      var front := more[..|more| - 1];
      assert forall ev :: ev in h + front ==> ev in h + more;
      ListingMirrors(h, dtos, front, rl);
      assert Last(more) in h + more;
      EventMirrors(AfterEvents(AfterTopology(map[], dtos), front), Replay(h + front), Last(more), rl);
      ReplayMore(h, more);
    }
  }

  lemma ReplayMore(h: seq<ClassifiedEvent>, more: seq<ClassifiedEvent>)
    requires |more| > 0
    ensures Replay(h + more) == Apply(Replay(h + more[..|more| - 1]), Last(more))
  {
    assert (h + more)[..|h + more| - 1] == h + more[..|more| - 1];
  }

  lemma SnapshotMirrors(h: seq<ClassifiedEvent>, dtos: seq<EdgeDto>, rl: V.RelLookup)
    requires forall ev :: ev in h ==> HopsFrom(ev, rl)
    requires IsSnapshot(dtos, Replay(h).edges)
    ensures Mirrors(AfterTopology(map[], dtos), Replay(h).edges, rl)
  {
    hide HopsFrom, AfterTopology, Replay;
    EdgesHaveRel(h, rl);
    LoadMirrors(dtos, Replay(h).edges, rl);
    assert Listed(dtos, Replay(h).edges) == Replay(h).edges;
  }

  // ---- The browser and the backend ----

  function DtoOfView(v: Views.EdgeView): EdgeDto {
    EdgeDto(EdgeKey(v.from, v.to), v.rel, v.status, v.count, v.leakCount, v.hijackCount)
  }

  /** The edges of a snapshot as the browser receives them. */
  function Dtos(views: seq<Views.EdgeView>): (dtos: seq<EdgeDto>)
    ensures |dtos| == |views| && forall i :: 0 <= i < |views| ==> dtos[i] == DtoOfView(views[i])
  {
    seq(|views|, i requires 0 <= i < |views| => DtoOfView(views[i]))
  }

  lemma TopologyIsSnapshot(g: Graph)
    ensures IsSnapshot(Dtos(Views.TopologyOf(g).edges), g.edges)
  {
    var views, dtos := Views.TopologyOf(g).edges, Dtos(Views.TopologyOf(g).edges);
    forall d | d in dtos
      ensures d.key in g.edges && d == DtoOf(d.key, g.edges[d.key])
    {
      var i :| 0 <= i < |dtos| && d == dtos[i];
      assert views[i] in Views.EdgeViews(g.edges);
    }
    forall k | k in g.edges
      ensures DtoOf(k, g.edges[k]) in dtos
    {
      var v := Views.EdgeViewOf(k, g.edges[k]);
      assert v in Views.EdgeViews(g.edges) && v in views;
      var i :| 0 <= i < |views| && views[i] == v;
      assert dtos[i] == DtoOf(k, g.edges[k]);
    }
  }

  /** The classifier made this event from these relationships and some VRPs, which may change from
      event to event. */
  ghost predicate ClassifiedWith(ev: ClassifiedEvent, rel: C.RelStore) {
    exists vrps: set<Tries.VRP> :: ev == C.Classify(ev.event, rel, vrps)
  }

  lemma ClassifierGivesHops(ev: ClassifiedEvent, rel: C.RelStore)
    requires ClassifiedWith(ev, rel)
    ensures HopsFrom(ev, C.Oracle(rel))
  {
    hide V.PathVerdict, V.Dedupe, V.Hops, C.Classify, HopsMatch;
    var vrps: set<Tries.VRP> :| ev == C.Classify(ev.event, rel, vrps);
    if ev.event.kind == Announce {
      HopsOfVerdict(ev.event, rel, vrps);
    }
    FlagAside(ev.event.asPath, ev.event.hasASSet, C.Oracle(rel));
  }

  lemma HopsOfVerdict(ev: UpdateEvent, rel: C.RelStore, vrps: set<Tries.VRP>)
    requires ev.kind == Announce
    ensures C.Classify(ev, rel, vrps).hops == V.PathVerdict(ev.asPath, ev.hasASSet, C.Oracle(rel)).hops
  {
    hide V.PathVerdict;
  }

  lemma FlagAside(path: seq<Asn>, hasASSet: bool, rl: V.RelLookup)
    ensures HopsMatch(V.PathVerdict(path, hasASSet, rl).hops, V.Hops(V.Dedupe(path), rl))
  {
    hide V.Dedupe, V.Hops, V.KnownHops, V.HasValley;
  }

  /** Main result: a browser that loads the snapshot the aggregator hands out after any history, and
      is fed any further events, has exactly the backend's edges, with its counts, status and
      relationship, provided all events were classified with one relationship store. */
  lemma BrowserMirrorsBackend(h: seq<ClassifiedEvent>, more: seq<ClassifiedEvent>, rel: C.RelStore)
    requires forall ev :: ev in h + more ==> ClassifiedWith(ev, rel)
    ensures var loaded := AfterTopology(map[], Dtos(Views.TopologyOf(Replay(h)).edges));
      Mirrors(AfterEvents(loaded, more), Replay(h + more).edges, C.Oracle(rel))
  {
    hide Replay, HopsFrom, ClassifiedWith, AfterTopology, AfterEvents, Views.TopologyOf;
    forall ev | ev in h + more
      ensures HopsFrom(ev, C.Oracle(rel))
    {
      ClassifierGivesHops(ev, rel);
    }
    TopologyIsSnapshot(Replay(h));
    ListingMirrors(h, Dtos(Views.TopologyOf(Replay(h)).edges), more, C.Oracle(rel));
  }
}
