/** The canonical demo topology (internal/synth/topology.go and prefixes.go): tiered ASes, their
    relationships kept twice, and a prefix plan with its ROAs. The seeded generator is an oracle
    that may answer anything in range. */
module SynthTopology {
  import opened Bgp
  import opened Prefixes
  import Relationships
  import Rpki
  import Tries

  const TIER1_BASE: Asn := 1001
  const TIER1_COUNT := 6
  const TRANSIT_BASE: Asn := 2001
  const TRANSIT_COUNT := 24
  const STUB_BASE: Asn := 3001
  const STUB_COUNT := 120
  const SIBLING_EVERY := 17
  const ROA_SKIP_EVERY := 5

  // ---- Randomness ----

  method IntN(n: nat) returns (r: nat)
    requires n > 0
    ensures r < n
  {
    r :| 0 <= r < n;
  }

  /** Whether a draw from the unit interval falls below some probability. */
  method Chance() returns (b: bool)
  {
    b := *;
  }

  // ---- The topology ----

  type Lists<!T> = map<Asn, seq<T>>

  function At<T>(m: Lists<T>, a: Asn): seq<T> {
    if a in m then m[a] else []
  }

  function Push<T>(m: Lists<T>, a: Asn, x: T): (r: Lists<T>)
    ensures forall b :: At(r, b) == if b == a then At(m, a) + [x] else At(m, b)
  {
    m[a := At(m, a) + [x]]
  }

  /** Who an AS buys from, sells to and peers with. */
  datatype Adjacency = Adjacency(providersOf: Lists<Asn>, customersOf: Lists<Asn>, peersOf: Lists<Asn>)

  datatype Topology = Topology(
    tier1: seq<Asn>,
    transit: seq<Asn>,
    stubs: seq<Asn>,
    rel: Relationships.RelStore,
    adj: Adjacency,
    ownerPrefixes: Lists<Prefix>,
    prefixOwner: map<Prefix, Asn>,
    originables: seq<Asn>,
    roaPrefixes: seq<Prefix>)

  type Edges = Relationships.Edges

  /** The relationship the edges hold for a toward b. */
  function View(edges: Edges, a: Asn, b: Asn): RelStatus {
    Relationships.RelStore(edges, map[], map[]).Lookup(a, b)
  }

  /** The adjacency lists say exactly what a lookup says. */
  ghost predicate Agrees(adj: Adjacency, edges: Edges) {
    && (forall a: Asn, b: Asn :: b in At(adj.providersOf, a) <==> View(edges, a, b) == RelProvider)
    && (forall a: Asn, b: Asn :: b in At(adj.customersOf, a) <==> View(edges, a, b) == RelCustomer)
    && (forall a: Asn, b: Asn :: b in At(adj.peersOf, a) <==> View(edges, a, b) == RelPeer)
  }

  /** The lists after the relationship a-c has been accepted. */
  function Linked(adj: Adjacency, a: Asn, c: Asn, rel: RelStatus): Adjacency {
    match rel
    case RelCustomer => adj.(customersOf := Push(adj.customersOf, a, c), providersOf := Push(adj.providersOf, c, a))
    case RelProvider => adj.(providersOf := Push(adj.providersOf, a, c), customersOf := Push(adj.customersOf, c, a))
    case RelPeer => adj.(peersOf := Push(Push(adj.peersOf, a, c), c, a))
    case _ => adj
  }

  /** What a lookup says once a fact has been accepted. */
  lemma ViewAfter(edges: Edges, a: Asn, c: Asn, rel: RelStatus, x: Asn, y: Asn)
    requires a != c && Relationships.Refusal(edges, a, c, rel).None?
    ensures View(Relationships.AfterAdd(edges, a, c, rel), x, y) ==
      if x == a && y == c then rel
      else if x == c && y == a then rel.Invert()
      else View(edges, x, y)
    ensures Relationships.KeyOf(a, c) in edges ==> View(edges, a, c) == rel && View(edges, c, a) == rel.Invert()
    ensures Relationships.KeyOf(a, c) !in edges ==> View(edges, a, c) == RelUnknown && View(edges, c, a) == RelUnknown
  {
  }

  lemma LinkedAgrees(adj: Adjacency, edges: Edges, a: Asn, c: Asn, rel: RelStatus)
    requires Agrees(adj, edges) && a != c && Relationships.Refusal(edges, a, c, rel).None?
    ensures Agrees(Linked(adj, a, c, rel), Relationships.AfterAdd(edges, a, c, rel))
  {
    hide View, Relationships.Refusal, Relationships.AfterAdd, At, Push;
    var adj', edges' := Linked(adj, a, c, rel), Relationships.AfterAdd(edges, a, c, rel);
    forall x: Asn, y: Asn
      ensures y in At(adj'.providersOf, x) <==> View(edges', x, y) == RelProvider
      ensures y in At(adj'.customersOf, x) <==> View(edges', x, y) == RelCustomer
      ensures y in At(adj'.peersOf, x) <==> View(edges', x, y) == RelPeer
    {
      ViewAfter(edges, a, c, rel, x, y);
      ViewAfter(edges, a, c, rel, a, c);
    }
  }

  /** Nothing known is lost. */
  ghost predicate Keeps(before: Edges, after: Edges) {
    forall k :: k in before ==> k in after && after[k] == before[k]
  }

  predicate InTier(a: Asn, base: Asn, count: nat) {
    base <= a < base + count
  }

  /** The ASes of a tier in ascending order. */
  function Tier(base: Asn, count: nat): (t: seq<Asn>)
    requires base + count < 0x1_0000_0000
    ensures |t| == count
    ensures forall i {:trigger t[i]} :: 0 <= i < count ==> t[i] == base + i
  {
    seq(count, i requires 0 <= i < count => base + i)
  }

  // ---- The prefix plan ----

  function P16(a: Byte, b: Byte): (p: Prefix)
    ensures p == Prefix(false, [a, b, 0, 0], 16)
  {
    var p := Prefix(false, [a, b, 0, 0], 16);
    assert MaskAddr(p.addr, 16) == p.addr;
    Masked(p)
  }

  function P24(a: Byte, b: Byte, c: Byte): (p: Prefix)
    ensures p == Prefix(false, [a, b, c, 0], 24)
  {
    var p := Prefix(false, [a, b, c, 0], 24);
    assert MaskAddr(p.addr, 24) == p.addr;
    Masked(p)
  }

  predicate InPlan(p: Prefix) {
    || (|p.addr| == 4 && (p.addr[0] == 11 || p.addr[0] == 12) && p == P16(p.addr[0], p.addr[1]))
    || (|p.addr| == 4 && (p.addr[0] == 100 || p.addr[0] == 101) && p == P24(p.addr[0], 0, p.addr[2]))
  }

  /** No planned prefix contains another. */
  lemma PlanIsDisjoint(q: Prefix, p: Prefix)
    requires InPlan(q) && InPlan(p)
    requires Covers(q, p)
    ensures q == p
  {
    assert SameBits(q.addr, p.addr, 8 * 1);
    SameBytes(q.addr, p.addr, 1);
    assert q.addr[0] == q.addr[..1][0] && p.addr[0] == p.addr[..1][0];
    if q.bits == 16 {
      SameBytes(q.addr, p.addr, 2);
      assert q.addr[1] == q.addr[..2][1] && p.addr[1] == p.addr[..2][1];
    } else {
      SameBytes(q.addr, p.addr, 3);
      assert q.addr[2] == q.addr[..3][2] && p.addr[2] == p.addr[..3][2];
    }
  }

  /** Planned prefixes are IPv4 ones. */
  lemma PlanIsNative(p: Prefix)
    requires InPlan(p)
    ensures p.IsValid() && !p.v6 && !Is4In6(p)
  {
  }

  /** The VRP of a prefix with a ROA: its owner, at exactly its length. */
  function Roa(p: Prefix, owner: Asn): Tries.VRP
    requires InPlan(p)
  {
    Tries.VRP(p, p.bits, owner)
  }

  /** The prefixes, their owners and the ROAs fit together. */
  ghost predicate PlanHolds(ownerPrefixes: Lists<Prefix>, prefixOwner: map<Prefix, Asn>, roaPrefixes: seq<Prefix>) {
    && (forall p :: p in prefixOwner ==> InPlan(p) && prefixOwner[p] >= TIER1_BASE)
    && (forall o: Asn, p :: p in At(ownerPrefixes, o) <==> p in prefixOwner && prefixOwner[p] == o)
    && (forall p :: p in roaPrefixes ==> p in prefixOwner)
  }

  /** The VRPs of the topology. */
  ghost function Roas(t: Topology): set<Tries.VRP>
    requires PlanHolds(t.ownerPrefixes, t.prefixOwner, t.roaPrefixes)
  {
    set p | p in t.roaPrefixes :: Roa(p, t.prefixOwner[p])
  }

  lemma RoaStored(p: Prefix, owner: Asn)
    requires InPlan(p)
    ensures Rpki.Stored(Roa(p, owner)) && Rpki.InRange({Roa(p, owner)}) == {Roa(p, owner)}
  {
    assert MaskAddr(p.addr, p.bits) == p.addr;
  }

  /** Main result on the plan: an announcement of a planned prefix is NotFound when the prefix has no
      ROA, Valid from its owner and Invalid from anyone else. */
  lemma PlanVerdict(t: Topology, p: Prefix, origin: Asn)
    requires PlanHolds(t.ownerPrefixes, t.prefixOwner, t.roaPrefixes)
    requires p in t.prefixOwner && origin != 0
    ensures Rpki.Assessed(Roas(t), p, origin) == Rpki.RovStatus(Roas(t), p, origin) ==
      if p !in t.roaPrefixes then RPKINotFound
      else if t.prefixOwner[p] == origin then RPKIValid
      else RPKIInvalid
  {
    forall v | v in Roas(t) && Rpki.CoveredBy(v, p)
      ensures v.prefix == p && p in t.roaPrefixes
    {
      PlanIsDisjoint(v.prefix, p);
    }
    if p in t.roaPrefixes {
      var v := Roa(p, t.prefixOwner[p]);
      assert v in Roas(t) && Rpki.CoveredBy(v, p);
    }
  }

  // ---- A finished topology ----

  /** What the scenarios rely on. */
  ghost predicate WellFormed(t: Topology) {
    && Agrees(t.adj, t.rel.edges)
    && PlanHolds(t.ownerPrefixes, t.prefixOwner, t.roaPrefixes)
    && |t.originables| > 0
    && (forall o :: o in t.originables ==> |At(t.ownerPrefixes, o)| > 0)
    && (forall s :: s in t.stubs ==> s >= STUB_BASE)
    && (HasLeakSite(t) ==> LeakSiteReady(t))
  }

  /** There are the two tier-1s and the transit AS a leak needs. */
  predicate HasLeakSite(t: Topology) {
    |t.tier1| >= 2 && |t.transit| >= 1
  }

  /** AS2001 buys from both of the first two tier-1s, and the first of them owns a prefix. */
  ghost predicate LeakSiteReady(t: Topology)
    requires HasLeakSite(t)
  {
    && t.tier1[0] == TIER1_BASE && t.tier1[1] == TIER1_BASE + 1 && t.transit[0] == TRANSIT_BASE
    && View(t.rel.edges, TRANSIT_BASE, TIER1_BASE) == RelProvider
    && View(t.rel.edges, TRANSIT_BASE, TIER1_BASE + 1) == RelProvider
    && |At(t.ownerPrefixes, TIER1_BASE)| > 0
  }
}
