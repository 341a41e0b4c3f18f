/** The running counters (internal/topology/stats.go) and their agreement with the graph. */
module GraphCounters {
  import opened Bgp
  import opened GraphModel
  import opened Sums
  import H = GraphHistory
  import C = Classify
  import Tries

  datatype Counters = Counters(
    totalEvents: nat,
    announces: nat,
    withdraws: nat,
    leaks: nat,
    hijacks: nat,
    rpkiValid: nat,
    rpkiInvalid: nat,
    rpkiNotFound: nat)

  function One(b: bool): nat {
    if b then 1 else 0
  }

  function Recorded(s: Counters, ev: ClassifiedEvent): Counters {
    var announce := ev.event.kind == Announce;
    Counters(
      s.totalEvents + 1,
      s.announces + One(announce),
      s.withdraws + One(!announce),
      s.leaks + One(ev.vfStatus == VFLeak),
      s.hijacks + One(ev.vfStatus == VFHijack),
      s.rpkiValid + One(announce && ev.rpkiStatus == RPKIValid),
      s.rpkiInvalid + One(announce && ev.rpkiStatus == RPKIInvalid),
      s.rpkiNotFound + One(announce && ev.rpkiStatus == RPKINotFound))
  }

  const ZERO := Counters(0, 0, 0, 0, 0, 0, 0, 0)

  function CountersOf(h: seq<ClassifiedEvent>): Counters {
    if |h| == 0 then ZERO else Recorded(CountersOf(h[..|h| - 1]), Last(h))
  }

  class Stats {
    var totalEvents: nat
    var announces: nat
    var withdraws: nat
    var leaks: nat
    var hijacks: nat
    var rpkiValid: nat
    var rpkiInvalid: nat
    var rpkiNotFound: nat

    constructor ()
      ensures Value() == ZERO
    {
      totalEvents, announces, withdraws, leaks, hijacks := 0, 0, 0, 0, 0;
      rpkiValid, rpkiInvalid, rpkiNotFound := 0, 0, 0;
    }

    function Value(): Counters
      reads this
    {
      Counters(totalEvents, announces, withdraws, leaks, hijacks, rpkiValid, rpkiInvalid, rpkiNotFound)
    }

    method Record(ev: ClassifiedEvent)
      modifies this
      ensures Value() == Recorded(old(Value()), ev)
    {
      totalEvents := totalEvents + 1;
      match ev.event.kind {
        case Announce => announces := announces + 1;
        case Withdraw => withdraws := withdraws + 1;
      }
      match ev.vfStatus {
        case VFLeak => leaks := leaks + 1;
        case VFHijack => hijacks := hijacks + 1;
        case _ =>
      }
      if ev.event.kind == Announce {
        match ev.rpkiStatus {
          case RPKIValid => rpkiValid := rpkiValid + 1;
          case RPKIInvalid => rpkiInvalid := rpkiInvalid + 1;
          case RPKINotFound => rpkiNotFound := rpkiNotFound + 1;
        }
      }
    }
  }

  // ---- What the counters count ----

  /** What an event may be counted for. */
  datatype Matter = OfKind(kind: UpdateKind) | OfVerdict(status: VFStatus) | OfOrigin(rpki: RPKIStatus)

  /** Withdraws say nothing about origins. */
  predicate Is(ev: ClassifiedEvent, m: Matter) {
    match m
    case OfKind(kind) => ev.event.kind == kind
    case OfVerdict(status) => ev.vfStatus == status
    case OfOrigin(rpki) => ev.event.kind == Announce && ev.rpkiStatus == rpki
  }

  /** The positions of the events of this matter. */
  function Where(h: seq<ClassifiedEvent>, m: Matter): set<nat> {
    set i: nat | i < |h| && Is(h[i], m)
  }

  lemma WhereNext(h: seq<ClassifiedEvent>, m: Matter)
    requires |h| > 0
    ensures |Where(h, m)| == |Where(h[..|h| - 1], m)| + One(Is(Last(h), m))
  {
    hide Is;
    var front := h[..|h| - 1];
    if Is(Last(h), m) {
      assert Where(h, m) == Where(front, m) + {|h| - 1};
    } else {
      assert Where(h, m) == Where(front, m);
    }
  }

  /** Main result: after any history every counter is the number of events of its own matter, whatever the
      classifier said of the others. */
  lemma {:induction false} CountersAreCounts(h: seq<ClassifiedEvent>)
    ensures var s := CountersOf(h);
      && s.totalEvents == |h|
      && s.announces == |Where(h, OfKind(Announce))|
      && s.withdraws == |Where(h, OfKind(Withdraw))|
      && s.leaks == |Where(h, OfVerdict(VFLeak))|
      && s.hijacks == |Where(h, OfVerdict(VFHijack))|
      && s.rpkiValid == |Where(h, OfOrigin(RPKIValid))|
      && s.rpkiInvalid == |Where(h, OfOrigin(RPKIInvalid))|
      && s.rpkiNotFound == |Where(h, OfOrigin(RPKINotFound))|
  {
    hide Where;
    if |h| > 0 {
      CountersAreCounts(h[..|h| - 1]);
      WhereNext(h, OfKind(Announce));
      WhereNext(h, OfKind(Withdraw));
      WhereNext(h, OfVerdict(VFLeak));
      WhereNext(h, OfVerdict(VFHijack));
      WhereNext(h, OfOrigin(RPKIValid));
      WhereNext(h, OfOrigin(RPKIInvalid));
      WhereNext(h, OfOrigin(RPKINotFound));
    } else {
      NothingAnywhere();
    }
  }

  lemma NothingAnywhere()
    ensures forall m :: Where([], m) == {}
  {
  }

  /** The counts an edge and a node are told by are numbers of events too. */
  lemma {:induction false} CountsAreNumbers(evs: seq<ClassifiedEvent>, v: VFStatus, s: RPKIStatus)
    ensures H.CountStatus(evs, v) == |Where(evs, OfVerdict(v))|
    ensures (forall e :: e in evs ==> e.event.kind == Announce) ==> H.CountRPKI(evs, s) == |Where(evs, OfOrigin(s))|
  {
    hide Where;
    if |evs| > 0 {
      CountsAreNumbers(evs[..|evs| - 1], v, s);
      WhereNext(evs, OfVerdict(v));
      WhereNext(evs, OfOrigin(s));
    } else {
      NothingAnywhere();
    }
  }

  // ---- Agreement with the graph ----

  function Invalids(nodes: map<Asn, Node>): map<Asn, int> {
    map a | a in nodes :: nodes[a].invalid
  }

  function Valids(nodes: map<Asn, Node>): map<Asn, int> {
    map a | a in nodes :: nodes[a].valid
  }

  /** An announcement with a known origin and this status. */
  function Tally(ev: ClassifiedEvent, s: RPKIStatus): nat {
    One(ev.event.kind == Announce && ev.event.originAS != 0 && ev.rpkiStatus == s)
  }

  /** Writing one node moves the sums by the change of its tallies. */
  lemma NodeWritten(nodes: map<Asn, Node>, a: Asn, n: Node)
    ensures SumMap(Invalids(nodes[a := n])) == SumMap(Invalids(nodes)) + n.invalid - if a in nodes then nodes[a].invalid else 0
    ensures SumMap(Valids(nodes[a := n])) == SumMap(Valids(nodes)) + n.valid - if a in nodes then nodes[a].valid else 0
  {
    hide SumMap;
    InvalidsWritten(nodes, a, n);
    ValidsWritten(nodes, a, n);
    SumUpdate(Invalids(nodes), a, n.invalid);
    SumUpdate(Valids(nodes), a, n.valid);
  }

  lemma InvalidsWritten(nodes: map<Asn, Node>, a: Asn, n: Node)
    ensures Invalids(nodes[a := n]) == Invalids(nodes)[a := n.invalid]
  {
  }

  lemma ValidsWritten(nodes: map<Asn, Node>, a: Asn, n: Node)
    ensures Valids(nodes[a := n]) == Valids(nodes)[a := n.valid]
  {
  }

  lemma SeenKeepsSums(nodes: map<Asn, Node>, a: Asn, now: int)
    ensures SumMap(Invalids(Seen(nodes, a, now))) == SumMap(Invalids(nodes))
    ensures SumMap(Valids(Seen(nodes, a, now))) == SumMap(Valids(nodes))
  {
    hide SumMap, Invalids, Valids;
    NodeWritten(nodes, a, NodeOf(nodes, a, now).(lastSeen := now));
  }

  lemma {:induction false} EdgesKeepSums(g: Graph, ev: ClassifiedEvent, n: nat)
    requires n == 0 || n < |ev.event.asPath|
    ensures SumMap(Invalids(ApplyEdges(g, ev, n).nodes)) == SumMap(Invalids(g.nodes))
    ensures SumMap(Valids(ApplyEdges(g, ev, n).nodes)) == SumMap(Valids(g.nodes))
  {
    hide Invalids, Valids, SumMap, Seen;
    if n > 0 {
      EdgesKeepSums(g, ev, n - 1);
      var m, p, now := ApplyEdges(g, ev, n - 1), ev.event.asPath, ev.event.timestamp;
      SeenKeepsSums(m.nodes, p[n - 1], now);
      SeenKeepsSums(Seen(m.nodes, p[n - 1], now), p[n], now);
    }
  }

  lemma OriginMovesSums(g: Graph, ev: ClassifiedEvent)
    ensures SumMap(Invalids(ApplyOrigin(g, ev).nodes)) == SumMap(Invalids(g.nodes)) + One(ev.rpkiStatus == RPKIInvalid)
    ensures SumMap(Valids(ApplyOrigin(g, ev).nodes)) == SumMap(Valids(g.nodes)) + One(ev.rpkiStatus == RPKIValid)
  {
    hide SumMap, Invalids, Valids;
    var o, now := ev.event.originAS, ev.event.timestamp;
    NodeWritten(g.nodes, o, Tallied(NodeOf(g.nodes, o, now), ev.rpkiStatus, now));
  }

  lemma RIBKeepsSums(g: Graph, ev: ClassifiedEvent)
    ensures Invalids(ApplyRIB(g, ev).nodes) == Invalids(g.nodes)
    ensures Valids(ApplyRIB(g, ev).nodes) == Valids(g.nodes)
  {
    hide Invalids, Valids, WithPrefixes;
    var p, o := ev.event.prefix, ev.event.originAS;
    var nodes := if p in g.rib then Released(g.nodes, g.rib[p], p) else g.nodes;
    if p in g.rib && g.rib[p] in g.nodes {
      PrefixesKeepSums(g.nodes, g.rib[p], g.nodes[g.rib[p]].prefixes - {p});
    }
    if o in nodes {
      PrefixesKeepSums(nodes, o, nodes[o].prefixes + {p});
    }
    if o in g.nodes {
      PrefixesKeepSums(g.nodes, o, g.nodes[o].prefixes + {p});
    }
  }

  lemma PrefixesKeepSums(nodes: map<Asn, Node>, o: Asn, prefixes: set<Prefix>)
    requires o in nodes
    ensures Invalids(WithPrefixes(nodes, o, prefixes)) == Invalids(nodes)
    ensures Valids(WithPrefixes(nodes, o, prefixes)) == Valids(nodes)
  {
  }

  lemma StepMovesSums(g: Graph, ev: ClassifiedEvent)
    ensures SumMap(Invalids(Apply(g, ev).nodes)) == SumMap(Invalids(g.nodes)) + Tally(ev, RPKIInvalid)
    ensures SumMap(Valids(Apply(g, ev).nodes)) == SumMap(Valids(g.nodes)) + Tally(ev, RPKIValid)
  {
    hide Invalids, Valids, SumMap, ApplyOrigin, ApplyEdges, ApplyRIB;
    var e := ev.event;
    OriginMovesSums(g, ev);
    var g1 := if e.kind == Announce && e.originAS != 0 then ApplyOrigin(g, ev) else g;
    var g2 := g1;
    if e.kind == Announce {
      EdgesKeepSums(g1, ev, Adjacencies(e.asPath));
      g2 := ApplyEdges(g1, ev, Adjacencies(e.asPath));
    }
    RIBKeepsSums(g2, ev);
  }

  /** The classifier made this event, from some relationships and some VRPs. */
  ghost predicate Classified(ev: ClassifiedEvent) {
    exists rel: C.RelStore, vrps: set<Tries.VRP> :: ev == C.Classify(ev.event, rel, vrps)
  }

  lemma ClassifiedStatuses(ev: ClassifiedEvent)
    requires Classified(ev)
    ensures ev.vfStatus == VFHijack <==> ev.event.kind == Announce && ev.rpkiStatus == RPKIInvalid
    ensures ev.event.originAS == 0 ==> ev.rpkiStatus == RPKINotFound
    ensures ev.vfStatus == VFLeak ==> ev.event.kind == Announce
  {
    hide C.Classify;
    var rel: C.RelStore, vrps: set<Tries.VRP> :| ev == C.Classify(ev.event, rel, vrps);
    C.Precedence(ev.event, rel, vrps);
    C.NeutralWithoutOrigin(ev.event, rel, vrps);
  }

  /** Main result: over any history of classified events the counters of the stages agree: hijacks are
      the RPKI-invalid announcements and the sum of the nodes' invalid tallies, the valid ones are the
      sum of the nodes' valid tallies, and every event is an announcement or a withdraw. */
  lemma {:induction false} StagesAgree(h: seq<ClassifiedEvent>)
    requires forall ev :: ev in h ==> Classified(ev)
    ensures var s, nodes := CountersOf(h), Replay(h).nodes;
      && s.hijacks == s.rpkiInvalid == SumMap(Invalids(nodes))
      && s.rpkiValid == SumMap(Valids(nodes))
      && s.announces + s.withdraws == s.totalEvents == |h|
      && s.rpkiValid + s.rpkiInvalid + s.rpkiNotFound == s.announces
      && s.leaks + s.hijacks <= s.announces
  {
    hide Invalids, Valids, Apply, Classified;
    if |h| > 0 {
      StagesAgree(h[..|h| - 1]);
      StepMovesSums(Replay(h[..|h| - 1]), Last(h));
      ClassifiedStatuses(Last(h));
    } else {
      NoTallies();
    }
  }

  lemma NoTallies()
    ensures SumMap(Invalids(EMPTY.nodes)) == 0 && SumMap(Valids(EMPTY.nodes)) == 0
  {
  }
}
