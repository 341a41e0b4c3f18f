/** Prefix ownership: the RIB and the prefix sets of the nodes always tell the same story. */
module GraphRib {
  import opened Bgp
  import opened GraphModel
  import opened Sums

  /** Who a history leaves in possession of a prefix: the last announcement with a known origin, unless
      a withdraw came after it. */
  function LastOwner(h: seq<ClassifiedEvent>, p: Prefix): Option<Asn> {
    if |h| == 0 then None else OwnerAfter(LastOwner(h[..|h| - 1], p), Last(h).event, p)
  }

  /** What one event makes of the owner of p. */
  function OwnerAfter(before: Option<Asn>, ev: UpdateEvent, p: Prefix): Option<Asn> {
    if ev.prefix != p then before
    else if ev.kind == Withdraw then None
    else if ev.originAS == 0 then before
    else Some(ev.originAS)
  }

  function RibAt(rib: map<Prefix, Asn>, p: Prefix): Option<Asn> {
    if p in rib then Some(rib[p]) else None
  }

  predicate Holds(nodes: map<Asn, Node>, a: Asn, p: Prefix) {
    a in nodes && p in nodes[a].prefixes
  }

  /** A prefix is in an AS's set exactly when the RIB maps it to that AS. */
  ghost predicate Agree(nodes: map<Asn, Node>, rib: map<Prefix, Asn>) {
    forall a: Asn, p :: Holds(nodes, a, p) <==> RibAt(rib, p) == Some(a)
  }

  /** Node updates that leave every prefix set alone, and make new nodes without prefixes. */
  ghost predicate SamePrefixes(before: map<Asn, Node>, after: map<Asn, Node>) {
    && before.Keys <= after.Keys
    && forall a: Asn, p :: Holds(after, a, p) <==> Holds(before, a, p)
  }

  lemma OriginKeepsPrefixes(g: Graph, ev: ClassifiedEvent)
    ensures SamePrefixes(g.nodes, ApplyOrigin(g, ev).nodes) && ApplyOrigin(g, ev).rib == g.rib
    ensures ev.event.originAS in ApplyOrigin(g, ev).nodes
  {
  }

  lemma AdjacencyKeepsPrefixes(g: Graph, ev: ClassifiedEvent, i: nat)
    requires i + 1 < |ev.event.asPath|
    ensures SamePrefixes(g.nodes, ApplyAdjacency(g, ev, i).nodes) && ApplyAdjacency(g, ev, i).rib == g.rib
  {
  }

  lemma {:induction false} EdgesKeepPrefixes(g: Graph, ev: ClassifiedEvent, n: nat)
    requires n == 0 || n < |ev.event.asPath|
    ensures SamePrefixes(g.nodes, ApplyEdges(g, ev, n).nodes) && ApplyEdges(g, ev, n).rib == g.rib
  {
    if n > 0 {
      hide ApplyAdjacency;
      EdgesKeepPrefixes(g, ev, n - 1);
      AdjacencyKeepsPrefixes(ApplyEdges(g, ev, n - 1), ev, n - 1);
    }
  }

  lemma RIBStepAgrees(g: Graph, ev: ClassifiedEvent)
    requires Agree(g.nodes, g.rib)
    requires ev.event.kind == Announce && ev.event.originAS != 0 ==> ev.event.originAS in g.nodes
    ensures Agree(ApplyRIB(g, ev).nodes, ApplyRIB(g, ev).rib)
  {
    var after := ApplyRIB(g, ev);
    forall a: Asn, p
      ensures Holds(after.nodes, a, p) <==> RibAt(after.rib, p) == Some(a)
    {
      assert Holds(g.nodes, a, p) <==> RibAt(g.rib, p) == Some(a);
    }
  }

  lemma StepAgrees(g: Graph, ev: ClassifiedEvent)
    requires Agree(g.nodes, g.rib)
    ensures Agree(Apply(g, ev).nodes, Apply(g, ev).rib)
    ensures forall p :: RibAt(Apply(g, ev).rib, p) == OwnerAfter(RibAt(g.rib, p), ev.event, p)
  {
    hide ApplyOrigin, ApplyEdges;
    var e := ev.event;
    var g1 := if e.kind == Announce && e.originAS != 0 then ApplyOrigin(g, ev) else g;
    OriginKeepsPrefixes(g, ev);
    var g2 := g1;
    if e.kind == Announce {
      EdgesKeepPrefixes(g1, ev, Adjacencies(e.asPath));
      g2 := ApplyEdges(g1, ev, Adjacencies(e.asPath));
    }
    PrefixesThrough(g, g1, g2);
    RIBStepAgrees(g2, ev);
    RIBSteps(g2, ev);
  }

  lemma PrefixesThrough(g: Graph, g1: Graph, g2: Graph)
    requires Agree(g.nodes, g.rib) && g1.rib == g.rib && g2.rib == g.rib
    requires g1 == g || SamePrefixes(g.nodes, g1.nodes)
    requires g2 == g1 || SamePrefixes(g1.nodes, g2.nodes)
    ensures Agree(g2.nodes, g2.rib)
  {
  }

  lemma RIBSteps(g: Graph, ev: ClassifiedEvent)
    ensures forall p :: RibAt(ApplyRIB(g, ev).rib, p) == OwnerAfter(RibAt(g.rib, p), ev.event, p)
  {
  }

  /** Main result: after any history the RIB holds the last owners, and a prefix is in an AS's set
      exactly when the RIB maps it to that AS; so it has at most one owner. */
  lemma {:induction false} RibIsHistory(h: seq<ClassifiedEvent>)
    ensures Agree(Replay(h).nodes, Replay(h).rib)
    ensures forall p :: RibAt(Replay(h).rib, p) == LastOwner(h, p)
  {
    if |h| > 0 {
      hide Apply, Agree;
      RibIsHistory(h[..|h| - 1]);
      StepAgrees(Replay(h[..|h| - 1]), Last(h));
    } else {
      NothingAgrees();
    }
  }

  lemma NothingAgrees()
    ensures Agree(EMPTY.nodes, EMPTY.rib)
  {
  }

  function PrefixSets(nodes: map<Asn, Node>): map<Asn, set<Prefix>> {
    map a | a in nodes :: nodes[a].prefixes
  }

  function Sizes(sets: map<Asn, set<Prefix>>): map<Asn, int> {
    map a | a in sets :: |sets[a]|
  }

  /** The prefixes of one owner. */
  function OwnedBy(rib: map<Prefix, Asn>, a: Asn): set<Prefix> {
    set p | p in rib && rib[p] == a
  }

  /** Sets that share out a map by its values have the map's size in all. */
  lemma {:induction false} SharedOut(sets: map<Asn, set<Prefix>>, rib: map<Prefix, Asn>)
    requires forall a :: a in sets ==> sets[a] == OwnedBy(rib, a)
    requires forall p :: p in rib ==> rib[p] in sets
    ensures SumMap(Sizes(sets)) == |rib|
    decreases |sets|
  {
    if |sets| == 0 {
      assert rib == map[];
      assert Sizes(sets) == map[];
    } else {
      hide OwnedBy, SumMap, Sizes;
      var a :| a in sets;
      TakeOwnerOut(sets, rib, a);
      SharedOut(sets - {a}, rib - OwnedBy(rib, a));
      SumWithout(Sizes(sets), a);
    }
  }

  /** Leaving one owner out, with all it owns. */
  lemma TakeOwnerOut(sets: map<Asn, set<Prefix>>, rib: map<Prefix, Asn>, a: Asn)
    requires a in sets
    requires forall b :: b in sets ==> sets[b] == OwnedBy(rib, b)
    requires forall p :: p in rib ==> rib[p] in sets
    ensures forall b :: b in sets - {a} ==> (sets - {a})[b] == OwnedBy(rib - OwnedBy(rib, a), b)
    ensures forall p :: p in rib - OwnedBy(rib, a) ==> (rib - OwnedBy(rib, a))[p] in sets - {a}
    ensures |sets - {a}| < |sets|
    ensures |rib| == |rib - OwnedBy(rib, a)| + |sets[a]|
    ensures a in Sizes(sets) && Sizes(sets)[a] == |sets[a]| && Sizes(sets) - {a} == Sizes(sets - {a})
  {
    var own := OwnedBy(rib, a);
    forall b | b in sets - {a}
      ensures (sets - {a})[b] == OwnedBy(rib - own, b)
    {
      assert OwnedBy(rib - own, b) == OwnedBy(rib, b);
    }
    SizeWithout(rib, own);
    assert |(sets - {a}).Keys| == |sets.Keys - {a}|;
  }

  lemma SizeWithout(rib: map<Prefix, Asn>, own: set<Prefix>)
    requires own <= rib.Keys
    ensures |rib| == |rib - own| + |own|
  {
    assert (rib - own).Keys == rib.Keys - own;
    assert |rib.Keys - own| == |rib.Keys| - |own|;
    assert |rib| == |rib.Keys| && |rib - own| == |(rib - own).Keys|;
  }

  /** Main result: after any history the prefix counts of the nodes add up to the size of the RIB. */
  lemma PrefixCountsAddUp(h: seq<ClassifiedEvent>)
    ensures SumMap(Sizes(PrefixSets(Replay(h).nodes))) == |Replay(h).rib|
  {
    hide Replay;
    RibIsHistory(h);
    OwnersShare(Replay(h).nodes, Replay(h).rib);
    SharedOut(PrefixSets(Replay(h).nodes), Replay(h).rib);
  }

  lemma OwnersShare(nodes: map<Asn, Node>, rib: map<Prefix, Asn>)
    requires Agree(nodes, rib)
    ensures forall a :: a in nodes ==> nodes[a].prefixes == OwnedBy(rib, a)
    ensures forall p :: p in rib ==> rib[p] in nodes
  {
    forall a | a in nodes
      ensures nodes[a].prefixes == OwnedBy(rib, a)
    {
      forall p
        ensures p in nodes[a].prefixes <==> p in OwnedBy(rib, a)
      {
        assert Holds(nodes, a, p) <==> RibAt(rib, p) == Some(a);
      }
    }
    forall p | p in rib
      ensures rib[p] in nodes
    {
      assert Holds(nodes, rib[p], p);
    }
  }
}
