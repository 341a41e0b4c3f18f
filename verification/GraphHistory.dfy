/** What the aggregator's graph is, in terms of the events that made it. */
module GraphHistory {
  import opened Bgp
  import opened GraphModel

  // ---- Edges ----

  predicate IsAt(path: seq<Asn>, i: nat, key: EdgeKey)
    requires i + 1 < |path|
  {
    path[i] == key.from && path[i + 1] == key.to && key.from != key.to
  }

  /** The event once for every time its first n adjacencies include the edge. */
  function Crossings(ev: ClassifiedEvent, n: nat, key: EdgeKey): (r: seq<ClassifiedEvent>)
    requires n == 0 || n < |ev.event.asPath|
    ensures forall e :: e in r ==> e == ev
  {
    if n == 0 then []
    else Crossings(ev, n - 1, key) + if IsAt(ev.event.asPath, n - 1, key) then [ev] else []
  }

  /** The events of a history that cross an edge, in order, as often as they cross it. */
  function Traversals(h: seq<ClassifiedEvent>, key: EdgeKey): (r: seq<ClassifiedEvent>)
    ensures forall e :: e in r ==> e in h && e.event.kind == Announce
  {
    if |h| == 0 then []
    else
      Traversals(h[..|h| - 1], key)
      + if Last(h).event.kind == Announce then Crossings(Last(h), Adjacencies(Last(h).event.asPath), key) else []
  }

  function CountStatus(evs: seq<ClassifiedEvent>, s: VFStatus): (n: nat)
    ensures n <= |evs|
  {
    if |evs| == 0 then 0 else CountStatus(evs[..|evs| - 1], s) + if Last(evs).vfStatus == s then 1 else 0
  }

  function Ids(evs: seq<ClassifiedEvent>): (ids: seq<EventID>)
    ensures |ids| == |evs|
    ensures forall k {:trigger ids[k]} :: 0 <= k < |evs| ==> ids[k] == evs[k].event.id
  {
    seq(|evs|, k requires 0 <= k < |evs| => evs[k].event.id)
  }

  /** What an edge should say, given the events that crossed it. */
  function EdgeOf(crossed: seq<ClassifiedEvent>, key: EdgeKey): Edge
    requires |crossed| > 0
  {
    Edge(RelForHop(crossed[0].hops, key.from, key.to),
         Last(crossed).vfStatus,
         |crossed|,
         CountStatus(crossed, VFLeak),
         CountStatus(crossed, VFHijack),
         Last(crossed).event.timestamp,
         Last(crossed).event.id,
         LastSamples(Ids(crossed)))
  }

  function EdgeIfAny(crossed: seq<ClassifiedEvent>, key: EdgeKey): Option<Edge> {
    if |crossed| == 0 then None else Some(EdgeOf(crossed, key))
  }

  lemma OneMoreCrossing(crossed: seq<ClassifiedEvent>, key: EdgeKey, ev: ClassifiedEvent)
    ensures EdgeIfAny(crossed + [ev], key) == Some(Traversed(EdgeIfAny(crossed, key), key, ev))
  {
    var more := crossed + [ev];
    assert more[..|crossed|] == crossed;
    assert Ids(more) == Ids(crossed) + [ev.event.id];
    SamplesKept(Ids(crossed), ev.event.id);
    assert Ids([ev]) == [ev.event.id];
  }

  /** Keeping the last samples as they come is keeping the last samples of all, which are the newest
      fifteen, in order, with the new one at the end. */
  lemma SamplesKept(s: seq<EventID>, id: EventID)
    ensures LastSamples(LastSamples(s) + [id]) == LastSamples(s + [id])
    ensures var kept := LastSamples(s + [id]);
      && |kept| == (if |s| + 1 < 15 then |s| + 1 else 15)
      && (forall j :: 0 <= j < |kept| ==> kept[j] == (s + [id])[|s| + 1 - |kept| + j])
      && Last(kept) == id
  {
  }

  lemma {:induction false} PathCrosses(g: Graph, ev: ClassifiedEvent, n: nat, key: EdgeKey, before: seq<ClassifiedEvent>)
    requires n == 0 || n < |ev.event.asPath|
    requires EdgeAt(g.edges, key) == EdgeIfAny(before, key)
    ensures EdgeAt(ApplyEdges(g, ev, n).edges, key) == EdgeIfAny(before + Crossings(ev, n, key), key)
  {
    if n == 0 {
      assert before + [] == before;
    } else {
      PathCrosses(g, ev, n - 1, key, before);
      var so := before + Crossings(ev, n - 1, key);
      if IsAt(ev.event.asPath, n - 1, key) {
        OneMoreCrossing(so, key, ev);
        assert before + Crossings(ev, n, key) == so + [ev];
      } else {
        assert before + Crossings(ev, n, key) == so;
      }
    }
  }

  lemma OriginKeepsEdges(g: Graph, ev: ClassifiedEvent)
    ensures ApplyOrigin(g, ev).edges == g.edges && ApplyOrigin(g, ev).rib == g.rib
  {
  }

  lemma RIBKeepsEdges(g: Graph, ev: ClassifiedEvent)
    ensures ApplyRIB(g, ev).edges == g.edges
  {
  }

  /** Main result: after any history an edge exists exactly when some event crossed it, and it says
      exactly what its crossings say. */
  lemma {:induction false} EdgeIsHistory(h: seq<ClassifiedEvent>, key: EdgeKey)
    ensures EdgeAt(Replay(h).edges, key) == EdgeIfAny(Traversals(h, key), key)
  {
    if |h| > 0 {
      hide ApplyOrigin, ApplyEdges, ApplyRIB, EdgeIfAny, Crossings;
      var rest, ev := h[..|h| - 1], Last(h);
      EdgeIsHistory(rest, key);
      var g := Replay(rest);
      OriginKeepsEdges(g, ev);
      var g1 := if ev.event.kind == Announce && ev.event.originAS != 0 then ApplyOrigin(g, ev) else g;
      if ev.event.kind == Announce {
        PathCrosses(g1, ev, Adjacencies(ev.event.asPath), key, Traversals(rest, key));
        RIBKeepsEdges(ApplyEdges(g1, ev, Adjacencies(ev.event.asPath)), ev);
      } else {
        assert Traversals(rest, key) + [] == Traversals(rest, key);
        RIBKeepsEdges(g1, ev);
      }
    }
  }

  /** Main result: an edge's samples are the ids of the newest fifteen events that crossed it, or of all if
      there were fewer, in order; the last is its last event's. */
  lemma SamplesAreNewest(h: seq<ClassifiedEvent>, key: EdgeKey)
    requires key in Replay(h).edges
    ensures var e, crossed := Replay(h).edges[key], Traversals(h, key);
      var m := if |crossed| < 15 then |crossed| else 15;
      && |e.samples| == m > 0
      && (forall j :: 0 <= j < m ==> e.samples[j] == crossed[|crossed| - m + j].event.id)
      && Last(e.samples) == e.lastEventID
  {
    hide Traversals, Replay, LastSamples;
    EdgeIsHistory(h, key);
    SamplesOf(Traversals(h, key));
  }

  lemma SamplesOf(crossed: seq<ClassifiedEvent>)
    requires |crossed| > 0
    ensures var s := LastSamples(Ids(crossed));
      && |s| == (if |crossed| < 15 then |crossed| else 15)
      && (forall j :: 0 <= j < |s| ==> s[j] == crossed[|crossed| - |s| + j].event.id)
      && Last(s) == Last(crossed).event.id
  {
  }

  /** Leaks and hijacks on an edge never exceed its count, and an edge joins two different ASes. */
  lemma EdgeCountsBounded(h: seq<ClassifiedEvent>, key: EdgeKey)
    requires key in Replay(h).edges
    ensures var e := Replay(h).edges[key];
      e.leakCount + e.hijackCount <= e.count && 1 <= e.count && 1 <= |e.samples| <= 15
    ensures key.from != key.to
  {
    EdgeIsHistory(h, key);
    TwoStatuses(Traversals(h, key));
    NoSelfCrossing(h, key);
  }

  lemma {:induction false} TwoStatuses(evs: seq<ClassifiedEvent>)
    ensures CountStatus(evs, VFLeak) + CountStatus(evs, VFHijack) <= |evs|
  {
    if |evs| > 0 {
      TwoStatuses(evs[..|evs| - 1]);
    }
  }

  lemma {:induction false} NoSelfCrossing(h: seq<ClassifiedEvent>, key: EdgeKey)
    ensures key.from == key.to ==> Traversals(h, key) == []
  {
    if |h| > 0 {
      NoSelfCrossing(h[..|h| - 1], key);
      if key.from == key.to {
        NoSelfAdjacency(Last(h), Adjacencies(Last(h).event.asPath), key);
      }
    }
  }

  lemma {:induction false} NoSelfAdjacency(ev: ClassifiedEvent, n: nat, key: EdgeKey)
    requires n == 0 || n < |ev.event.asPath|
    requires key.from == key.to
    ensures Crossings(ev, n, key) == []
  {
    if n > 0 {
      NoSelfAdjacency(ev, n - 1, key);
    }
  }

  // ---- Nodes ----

  /** asn is an end of one of the first n real adjacencies. */
  predicate OnPath(path: seq<Asn>, n: nat, asn: Asn)
    requires n == 0 || n < |path|
  {
    exists i :: 0 <= i < n && path[i] != path[i + 1] && (path[i] == asn || path[i + 1] == asn)
  }

  /** The event brings the AS into the graph. */
  predicate Shows(ev: ClassifiedEvent, asn: Asn) {
    && ev.event.kind == Announce
    && ((ev.event.originAS != 0 && ev.event.originAS == asn) || OnPath(ev.event.asPath, Adjacencies(ev.event.asPath), asn))
  }

  /** The announcements with this origin. */
  function OriginatedBy(h: seq<ClassifiedEvent>, o: Asn): (r: seq<ClassifiedEvent>)
    ensures forall e :: e in r ==> e in h && e.event.kind == Announce && e.event.originAS == o && o != 0
  {
    if |h| == 0 then []
    else
      OriginatedBy(h[..|h| - 1], o)
      + if Last(h).event.kind == Announce && o != 0 && Last(h).event.originAS == o then [Last(h)] else []
  }

  function CountRPKI(evs: seq<ClassifiedEvent>, s: RPKIStatus): (n: nat)
    ensures n <= |evs|
  {
    if |evs| == 0 then 0 else CountRPKI(evs[..|evs| - 1], s) + if Last(evs).rpkiStatus == s then 1 else 0
  }

  function Times(evs: seq<ClassifiedEvent>): (t: seq<int>)
    ensures |t| == |evs|
    ensures forall k {:trigger t[k]} :: 0 <= k < |evs| ==> t[k] == evs[k].event.timestamp
  {
    seq(|evs|, k requires 0 <= k < |evs| => evs[k].event.timestamp)
  }

  /** The status a node's tallies imply. */
  function Implied(valid: nat, invalid: nat): RPKIStatus {
    if invalid > 0 then RPKIInvalid else if valid > 0 then RPKIValid else RPKINotFound
  }

  /** The node's tallies, worst status and series are those of the announcements it originated. */
  ghost predicate Tallies(n: Node, evs: seq<ClassifiedEvent>) {
    && n.valid == CountRPKI(evs, RPKIValid)
    && n.invalid == CountRPKI(evs, RPKIInvalid)
    && n.notFound == CountRPKI(evs, RPKINotFound)
    && n.events == |evs|
    && n.times == Times(evs)
    && n.worst == Implied(n.valid, n.invalid)
  }

  /** An AS without a node has originated nothing; the tallies of a node are right. */
  ghost predicate TalliesAt(nodes: map<Asn, Node>, asn: Asn, evs: seq<ClassifiedEvent>) {
    if asn in nodes then Tallies(nodes[asn], evs) else evs == []
  }

  lemma OneMoreTally(n: Node, evs: seq<ClassifiedEvent>, ev: ClassifiedEvent)
    requires Tallies(n, evs)
    ensures Tallies(Tallied(n, ev.rpkiStatus, ev.event.timestamp), evs + [ev])
  {
    var more := evs + [ev];
    assert more[..|evs|] == evs;
    assert Times(more) == Times(evs) + [ev.event.timestamp];
  }

  lemma FreshTallies(now: int)
    ensures Tallies(NewNode(now), [])
  {
    assert Times([]) == [];
  }

  lemma {:induction false} PathKeepsTallies(g: Graph, ev: ClassifiedEvent, n: nat, asn: Asn, evs: seq<ClassifiedEvent>)
    requires n == 0 || n < |ev.event.asPath|
    requires TalliesAt(g.nodes, asn, evs)
    ensures TalliesAt(ApplyEdges(g, ev, n).nodes, asn, evs)
    ensures asn in ApplyEdges(g, ev, n).nodes <==> asn in g.nodes || OnPath(ev.event.asPath, n, asn)
    ensures ApplyEdges(g, ev, n).rib == g.rib
  {
    hide OnPath, TalliesAt, ApplyAdjacency;
    if n > 0 {
      PathKeepsTallies(g, ev, n - 1, asn, evs);
      AdjacencyKeepsTallies(ApplyEdges(g, ev, n - 1), ev, n - 1, asn, evs);
      OnLongerPath(ev.event.asPath, n, asn);
    } else {
      OnNoPath(ev.event.asPath, asn);
    }
  }

  lemma OnNoPath(path: seq<Asn>, asn: Asn)
    ensures !OnPath(path, 0, asn)
  {
  }

  lemma OnLongerPath(path: seq<Asn>, n: nat, asn: Asn)
    requires 0 < n < |path|
    ensures OnPath(path, n, asn) <==> OnPath(path, n - 1, asn) || (path[n - 1] != path[n] && (path[n - 1] == asn || path[n] == asn))
  {
    if OnPath(path, n - 1, asn) {
      var i :| 0 <= i < n - 1 && path[i] != path[i + 1] && (path[i] == asn || path[i + 1] == asn);
      assert 0 <= i < n && path[i] != path[i + 1];
    }
    if path[n - 1] != path[n] && (path[n - 1] == asn || path[n] == asn) {
      assert path[(n - 1)] != path[(n - 1) + 1];
    }
  }

  lemma AdjacencyKeepsTallies(g: Graph, ev: ClassifiedEvent, i: nat, asn: Asn, evs: seq<ClassifiedEvent>)
    requires i + 1 < |ev.event.asPath|
    requires TalliesAt(g.nodes, asn, evs)
    ensures var p, after := ev.event.asPath, ApplyAdjacency(g, ev, i);
      && TalliesAt(after.nodes, asn, evs)
      && (asn in after.nodes <==> asn in g.nodes || (p[i] != p[i + 1] && (p[i] == asn || p[i + 1] == asn)))
      && after.rib == g.rib
  {
    hide CountRPKI, Times, Implied;
    FreshTallies(ev.event.timestamp);
  }

  lemma RIBKeepsTallies(g: Graph, ev: ClassifiedEvent, asn: Asn, evs: seq<ClassifiedEvent>)
    requires TalliesAt(g.nodes, asn, evs)
    ensures TalliesAt(ApplyRIB(g, ev).nodes, asn, evs)
    ensures asn in ApplyRIB(g, ev).nodes <==> asn in g.nodes
  {
    hide CountRPKI;
  }

  lemma OriginTallies(g: Graph, ev: ClassifiedEvent, asn: Asn, evs: seq<ClassifiedEvent>)
    requires TalliesAt(g.nodes, asn, evs)
    ensures TalliesAt(ApplyOrigin(g, ev).nodes, asn, evs + if asn == ev.event.originAS then [ev] else [])
    ensures asn in ApplyOrigin(g, ev).nodes <==> asn in g.nodes || asn == ev.event.originAS
  {
    hide CountRPKI, Times;
    if asn == ev.event.originAS {
      FreshTallies(ev.event.timestamp);
      OneMoreTally(NodeOf(g.nodes, asn, ev.event.timestamp), evs, ev);
    } else {
      assert evs + [] == evs;
    }
  }

  // ---- When a node was seen ----

  /** The events that show the AS. */
  function Showing(h: seq<ClassifiedEvent>, asn: Asn): (r: seq<ClassifiedEvent>)
    ensures forall e :: e in r ==> e in h && Shows(e, asn)
  {
    if |h| == 0 then [] else Showing(h[..|h| - 1], asn) + ShownIn(Last(h), asn)
  }

  function ShownIn(ev: ClassifiedEvent, asn: Asn): seq<ClassifiedEvent> {
    if Shows(ev, asn) then [ev] else []
  }

  /** The node was first and last seen at the times of the first and the last of these events. */
  ghost predicate SeenAt(nodes: map<Asn, Node>, asn: Asn, evs: seq<ClassifiedEvent>) {
    if asn in nodes then
      && |evs| > 0
      && nodes[asn].firstSeen == evs[0].event.timestamp
      && nodes[asn].lastSeen == Last(evs).event.timestamp
    else evs == []
  }

  /** What an update at time `now` does to the times of an AS, if it shows the AS, and if not. */
  ghost predicate Sees(before: map<Asn, Node>, after: map<Asn, Node>, asn: Asn, now: int, shown: bool) {
    && (asn in after <==> asn in before || shown)
    && (asn in after ==>
          && after[asn].firstSeen == (if asn in before then before[asn].firstSeen else now)
          && after[asn].lastSeen == if shown then now else before[asn].lastSeen)
  }

  lemma SeesTwice(a: map<Asn, Node>, b: map<Asn, Node>, c: map<Asn, Node>, asn: Asn, now: int, first: bool, second: bool)
    requires Sees(a, b, asn, now, first) && Sees(b, c, asn, now, second)
    ensures Sees(a, c, asn, now, first || second)
  {
  }

  lemma SeesOnce(before: map<Asn, Node>, after: map<Asn, Node>, asn: Asn, ev: ClassifiedEvent, evs: seq<ClassifiedEvent>)
    requires SeenAt(before, asn, evs) && Sees(before, after, asn, ev.event.timestamp, Shows(ev, asn))
    ensures SeenAt(after, asn, evs + ShownIn(ev, asn))
  {
    hide Shows;
    if !Shows(ev, asn) {
      assert evs + [] == evs;
    }
  }

  lemma OriginSees(g: Graph, ev: ClassifiedEvent, asn: Asn)
    ensures Sees(g.nodes, ApplyOrigin(g, ev).nodes, asn, ev.event.timestamp, asn == ev.event.originAS)
  {
  }

  lemma AdjacencySees(g: Graph, ev: ClassifiedEvent, i: nat, asn: Asn)
    requires i + 1 < |ev.event.asPath|
    ensures var p := ev.event.asPath;
      Sees(g.nodes, ApplyAdjacency(g, ev, i).nodes, asn, ev.event.timestamp, p[i] != p[i + 1] && (p[i] == asn || p[i + 1] == asn))
  {
  }

  lemma {:induction false} PathSees(g: Graph, ev: ClassifiedEvent, n: nat, asn: Asn)
    requires n == 0 || n < |ev.event.asPath|
    ensures Sees(g.nodes, ApplyEdges(g, ev, n).nodes, asn, ev.event.timestamp, OnPath(ev.event.asPath, n, asn))
  {
    if n > 0 {
      hide OnPath, Sees, ApplyAdjacency;
      var p, now, mid := ev.event.asPath, ev.event.timestamp, ApplyEdges(g, ev, n - 1);
      PathSees(g, ev, n - 1, asn);
      AdjacencySees(mid, ev, n - 1, asn);
      OnLongerPath(p, n, asn);
      SeesTwice(g.nodes, mid.nodes, ApplyAdjacency(mid, ev, n - 1).nodes, asn, now,
                OnPath(p, n - 1, asn), p[n - 1] != p[n] && (p[n - 1] == asn || p[n] == asn));
    } else {
      OnNoPath(ev.event.asPath, asn);
    }
  }

  lemma RIBSees(g: Graph, ev: ClassifiedEvent, asn: Asn)
    ensures Sees(g.nodes, ApplyRIB(g, ev).nodes, asn, ev.event.timestamp, false)
  {
  }

  lemma NoUpdateSees(nodes: map<Asn, Node>, asn: Asn, now: int)
    ensures Sees(nodes, nodes, asn, now, false)
  {
  }

  lemma StepSees(g: Graph, ev: ClassifiedEvent, asn: Asn)
    ensures Sees(g.nodes, Apply(g, ev).nodes, asn, ev.event.timestamp, Shows(ev, asn))
  {
    hide Sees, ApplyOrigin, ApplyEdges, ApplyRIB, OnPath;
    var e, now := ev.event, ev.event.timestamp;
    var g1, asOrigin := g, false;
    NoUpdateSees(g.nodes, asn, now);
    if e.kind == Announce && e.originAS != 0 {
      OriginSees(g, ev, asn);
      g1, asOrigin := ApplyOrigin(g, ev), asn == e.originAS;
    }
    var g2, onPath := g1, false;
    NoUpdateSees(g1.nodes, asn, now);
    if e.kind == Announce {
      PathSees(g1, ev, Adjacencies(e.asPath), asn);
      g2, onPath := ApplyEdges(g1, ev, Adjacencies(e.asPath)), OnPath(e.asPath, Adjacencies(e.asPath), asn);
    }
    RIBSees(g2, ev, asn);
    SeesTwice(g.nodes, g1.nodes, g2.nodes, asn, now, asOrigin, onPath);
    SeesTwice(g.nodes, g2.nodes, ApplyRIB(g2, ev).nodes, asn, now, asOrigin || onPath, false);
  }

  /** Main result: after any history a node exists exactly for the ASes shown by an announcement, its
      tallies, worst status and event times are those of the announcements it originated, and it was
      first and last seen at the times of the first and last event that showed it. */
  lemma {:induction false} NodeIsHistory(h: seq<ClassifiedEvent>, asn: Asn)
    ensures TalliesAt(Replay(h).nodes, asn, OriginatedBy(h, asn))
    ensures asn in Replay(h).nodes <==> ShownBy(h, asn)
    ensures SeenAt(Replay(h).nodes, asn, Showing(h, asn))
  {
    if |h| > 0 {
      hide Shows, TalliesAt, SeenAt, Sees, ShownIn, Apply;
      StepSees(Replay(h[..|h| - 1]), Last(h), asn);
      var rest, ev := h[..|h| - 1], Last(h);
      NodeIsHistory(rest, asn);
      StepShows(Replay(rest), ev, asn, OriginatedBy(rest, asn));
      SeesOnce(Replay(rest).nodes, Replay(h).nodes, asn, ev, Showing(rest, asn));
      OneMoreOriginated(h, asn);
      ShownByOneMore(h, asn);
    }
  }

  /** Some announcement shows the AS. */
  ghost predicate ShownBy(h: seq<ClassifiedEvent>, asn: Asn) {
    exists ev :: ev in h && Shows(ev, asn)
  }

  lemma ShownByOneMore(h: seq<ClassifiedEvent>, asn: Asn)
    requires |h| > 0
    ensures ShownBy(h, asn) <==> ShownBy(h[..|h| - 1], asn) || Shows(Last(h), asn)
  {
    hide Shows;
    assert forall e :: e in h <==> e in h[..|h| - 1] || e == Last(h);
  }

  lemma OneMoreOriginated(h: seq<ClassifiedEvent>, asn: Asn)
    requires |h| > 0
    ensures OriginatedBy(h, asn) == OriginatedBy(h[..|h| - 1], asn) + Originated(Last(h), asn)
  {
  }

  function Originated(ev: ClassifiedEvent, asn: Asn): seq<ClassifiedEvent> {
    if ev.event.kind == Announce && asn != 0 && ev.event.originAS == asn then [ev] else []
  }

  lemma StepShows(g: Graph, ev: ClassifiedEvent, asn: Asn, evs: seq<ClassifiedEvent>)
    requires TalliesAt(g.nodes, asn, evs)
    ensures TalliesAt(Apply(g, ev).nodes, asn, evs + Originated(ev, asn))
    ensures asn in Apply(g, ev).nodes <==> asn in g.nodes || Shows(ev, asn)
  {
    hide TalliesAt, ApplyOrigin, ApplyEdges, ApplyRIB, OnPath;
    var e := ev.event;
    assert evs + [] == evs;
    var g1, evs1 := g, evs;
    if e.kind == Announce && e.originAS != 0 {
      OriginTallies(g, ev, asn, evs);
      g1, evs1 := ApplyOrigin(g, ev), evs + if asn == e.originAS then [ev] else [];
    }
    assert evs1 == evs + Originated(ev, asn);
    var g2 := g1;
    if e.kind == Announce {
      PathKeepsTallies(g1, ev, Adjacencies(e.asPath), asn, evs1);
      g2 := ApplyEdges(g1, ev, Adjacencies(e.asPath));
    }
    RIBKeepsTallies(g2, ev, asn, evs1);
  }

  /** Both ends of an edge are nodes. */
  lemma EndsAreNodes(h: seq<ClassifiedEvent>, key: EdgeKey)
    requires key in Replay(h).edges
    ensures key.from in Replay(h).nodes && key.to in Replay(h).nodes
  {
    EdgeIsHistory(h, key);
    var ev := Traversals(h, key)[0];
    CrossingIsOnPath(h, key);
    NodeIsHistory(h, key.from);
    NodeIsHistory(h, key.to);
  }

  lemma {:induction false} CrossingIsOnPath(h: seq<ClassifiedEvent>, key: EdgeKey)
    ensures forall e :: e in Traversals(h, key) ==> Shows(e, key.from) && Shows(e, key.to)
  {
    if |h| > 0 {
      CrossingIsOnPath(h[..|h| - 1], key);
      if Last(h).event.kind == Announce {
        CrossedAdjacency(Last(h), Adjacencies(Last(h).event.asPath), key);
      }
    }
  }

  lemma {:induction false} CrossedAdjacency(ev: ClassifiedEvent, n: nat, key: EdgeKey)
    requires n == 0 || n < |ev.event.asPath|
    ensures Crossings(ev, n, key) != [] ==> OnPath(ev.event.asPath, n, key.from) && OnPath(ev.event.asPath, n, key.to)
  {
    if n > 0 {
      CrossedAdjacency(ev, n - 1, key);
      var p := ev.event.asPath;
      if IsAt(p, n - 1, key) {
        assert p[n - 1] != p[n];
      } else if Crossings(ev, n - 1, key) != [] {
        var i :| 0 <= i < n - 1 && p[i] != p[i + 1] && (p[i] == key.from || p[i + 1] == key.from);
        var j :| 0 <= j < n - 1 && p[j] != p[j + 1] && (p[j] == key.to || p[j + 1] == key.to);
        assert 0 <= i < n && 0 <= j < n;
      }
    }
  }
}
