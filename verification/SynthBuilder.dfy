/** Building the demo topology (internal/synth/topology.go and prefixes.go). */
module SynthBuilder {
  import opened Bgp
  import opened SynthTopology
  import Relationships
  import Rpki
  import Tries

  function Members(s: seq<Asn>): set<Asn> {
    set a | a in s
  }

  lemma {:induction false} RepeatFreeSize(s: seq<Asn>)
    requires NoRepeats(s)
    ensures |Members(s)| == |s|
  {
    if |s| > 0 {
      var rest := s[..|s| - 1];
      RepeatFreeSize(rest);
      assert Members(s) == Members(rest) + {Last(s)};
      assert Last(s) !in rest;
    }
  }

  /** A longer list without repeats has an element the shorter one misses. */
  lemma SomeoneLeft(pool: seq<Asn>, out: seq<Asn>)
    requires NoRepeats(pool) && NoRepeats(out) && |out| < |pool|
    ensures exists i :: 0 <= i < |pool| && pool[i] !in out
  {
    RepeatFreeSize(pool);
    RepeatFreeSize(out);
    if forall i :: 0 <= i < |pool| ==> pool[i] in out {
      assert Members(pool) <= Members(out);
      SubsetSize(Members(pool), Members(out));
    }
  }

  lemma {:induction false} SubsetSize(a: set<Asn>, b: set<Asn>)
    requires a <= b
    ensures |a| <= |b|
  {
    assert b == a + (b - a);
  }

  /** n distinct members of the pool, or all of them; the retries of the original end by luck, here
      the draw is of a member not yet taken. */
  method PickDistinct(pool: seq<Asn>, n: nat) returns (out: seq<Asn>)
    requires NoRepeats(pool)
    ensures NoRepeats(out)
    ensures |out| == if n >= |pool| then |pool| else n
    ensures forall a :: a in out ==> a in pool
  {
    if n >= |pool| {
      return pool;
    }
    out := [];
    while |out| < n
      invariant |out| <= n
      invariant NoRepeats(out)
      invariant forall a :: a in out ==> a in pool
    {
      SomeoneLeft(pool, out);
      var i :| 0 <= i < |pool| && pool[i] !in out;
      out := out + [pool[i]];
    }
  }

  // ---- The tiers ----

  /** 1, 2 and 3 for tier-1s, transits and stubs, 0 for anyone else. */
  function TierOf(a: Asn): nat {
    if InTier(a, TIER1_BASE, TIER1_COUNT) then 1
    else if InTier(a, TRANSIT_BASE, TRANSIT_COUNT) then 2
    else if InTier(a, STUB_BASE, STUB_COUNT) then 3
    else 0
  }

  /** Neighbouring tiers trade, tier-1s and transits peer among themselves, and every 17th stub may
      have its successor for a sibling. */
  predicate MayLink(a: Asn, c: Asn) {
    var t, u := TierOf(a), TierOf(c);
    && a != c && t > 0 && u > 0
    && (t == u == 3 ==>
          || (c == a + 1 && (a - STUB_BASE) % SIBLING_EVERY == 0)
          || (a == c + 1 && (c - STUB_BASE) % SIBLING_EVERY == 0))
    && -1 <= t - u <= 1
  }

  /** What two linked ASes are to each other: the higher tier sells to the lower one. */
  function LinkOf(a: Asn, c: Asn): RelStatus {
    if TierOf(a) < TierOf(c) then RelCustomer
    else if TierOf(a) > TierOf(c) then RelProvider
    else if TierOf(a) == 3 then RelSibling
    else RelPeer
  }

  /** Every link is one the tiers allow, and is what it has to be. */
  ghost predicate Tiered(edges: Edges) {
    forall k :: k in edges ==> k.lo < k.hi && MayLink(k.lo, k.hi) && edges[k] == LinkOf(k.lo, k.hi)
  }

  ghost predicate Joined(edges: Edges, a: Asn, c: Asn) {
    Relationships.KeyOf(a, c) in edges
  }

  /** In a tiered topology a lookup knows exactly the links, as the tiers make them. */
  lemma TieredView(edges: Edges, a: Asn, c: Asn)
    requires Tiered(edges) && a != c
    ensures View(edges, a, c) == if Joined(edges, a, c) then LinkOf(a, c) else RelUnknown
    ensures Joined(edges, a, c) ==> MayLink(a, c)
  {
  }

  /** One more link of the kind the tiers ask for. */
  lemma TieredGrows(edges: Edges, a: Asn, c: Asn)
    requires Tiered(edges) && MayLink(a, c)
    ensures var after := Relationships.AfterAdd(edges, a, c, LinkOf(a, c));
      && Tiered(after) && Keeps(edges, after) && Joined(after, a, c)
      && after.Keys <= edges.Keys + {Relationships.KeyOf(a, c)}
  {
  }

  lemma KeepsOn(a: Edges, b: Edges, c: Edges)
    requires Keeps(a, b) && Keeps(b, c)
    ensures Keeps(a, c)
  {
  }

  lemma KeepsSelf(a: Edges)
    ensures Keeps(a, a)
  {
  }

  lemma StaysJoined(before: Edges, after: Edges, a: Asn, c: Asn)
    requires Keeps(before, after) && Joined(before, a, c)
    ensures Joined(after, a, c)
  {
  }

  /** Some member of the tier sells to a. */
  ghost predicate HasUpstream(edges: Edges, a: Asn, tier: seq<Asn>) {
    exists i :: 0 <= i < |tier| && Joined(edges, a, tier[i])
  }

  ghost predicate AllUpstream(edges: Edges, buyers: seq<Asn>, tier: seq<Asn>) {
    forall i :: 0 <= i < |buyers| ==> HasUpstream(edges, buyers[i], tier)
  }

  lemma UpstreamStays(before: Edges, after: Edges, buyers: seq<Asn>, tier: seq<Asn>)
    requires Keeps(before, after) && AllUpstream(before, buyers, tier)
    ensures AllUpstream(after, buyers, tier)
  {
    hide Keeps, Joined;
    forall i | 0 <= i < |buyers|
      ensures HasUpstream(after, buyers[i], tier)
    {
      var j :| 0 <= j < |tier| && Joined(before, buyers[i], tier[j]);
      StaysJoined(before, after, buyers[i], tier[j]);
    }
  }

  lemma NoBuyers(edges: Edges, buyers: seq<Asn>, tier: seq<Asn>)
    ensures AllUpstream(edges, buyers[..0], tier) && SiblingsBelow(edges, 0)
  {
  }

  lemma OneMoreBuyer(before: Edges, after: Edges, buyers: seq<Asn>, n: nat, tier: seq<Asn>, j: nat)
    requires Keeps(before, after) && n < |buyers| && j < |tier|
    requires AllUpstream(before, buyers[..n], tier) && Joined(after, buyers[n], tier[j])
    ensures AllUpstream(after, buyers[..n + 1], tier)
  {
    hide Keeps, Joined;
    UpstreamStays(before, after, buyers[..n], tier);
    assert forall i :: 0 <= i < n ==> buyers[..n + 1][i] == buyers[..n][i];
  }

  /** All pairs (x, y) of tier-1s with x < i, or x == i and y < j, are linked. */
  ghost predicate MeshedBelow(edges: Edges, i: nat, j: nat) {
    forall x: nat, y: nat :: x < y < TIER1_COUNT && (x < i || (x == i && y < j)) ==> Joined(edges, Nth(x), Nth(y))
  }

  /** The number of a tier-1. */
  function Nth(i: nat): Asn
    requires i < TIER1_COUNT
  {
    TIER1_BASE + i
  }

  lemma MeshGrows(before: Edges, after: Edges, i: nat, j: nat)
    requires i < j < TIER1_COUNT
    requires Keeps(before, after) && MeshedBelow(before, i, j) && Joined(after, Nth(i), Nth(j))
    ensures MeshedBelow(after, i, j + 1)
  {
  }

  lemma RowDone(edges: Edges, i: nat)
    requires i < TIER1_COUNT && MeshedBelow(edges, i, TIER1_COUNT)
    ensures MeshedBelow(edges, i + 1, i + 2)
  {
  }

  lemma MeshStays(before: Edges, after: Edges)
    requires Keeps(before, after) && MeshedBelow(before, TIER1_COUNT, TIER1_COUNT)
    ensures MeshedBelow(after, TIER1_COUNT, TIER1_COUNT)
  {
  }

  /** The siblings among the first n stubs are linked. */
  ghost predicate SiblingsBelow(edges: Edges, n: nat) {
    forall i: nat :: i < n && i + 1 < STUB_COUNT && i % SIBLING_EVERY == 0 ==> Joined(edges, STUB_BASE + i, STUB_BASE + i + 1)
  }

  lemma SiblingsGrow(before: Edges, after: Edges, n: nat)
    requires Keeps(before, after) && SiblingsBelow(before, n)
    requires n + 1 < STUB_COUNT && n % SIBLING_EVERY == 0 ==> Joined(after, STUB_BASE + n, STUB_BASE + n + 1)
    ensures SiblingsBelow(after, n + 1)
  {
  }

  // ---- How many upstreams ----

  /** The members of a tier an AS is linked to. */
  ghost function Upstreams(edges: Edges, a: Asn, tier: seq<Asn>): set<Asn> {
    set p | p in tier && Joined(edges, a, p)
  }

  ghost predicate AtMostTwo(edges: Edges, buyers: seq<Asn>, tier: seq<Asn>) {
    forall i :: 0 <= i < |buyers| ==> |Upstreams(edges, buyers[i], tier)| <= 2
  }

  /** No AS below the first m tiers is linked. */
  ghost predicate Within(edges: Edges, m: nat) {
    forall k :: k in edges ==> TierOf(k.lo) <= m && TierOf(k.hi) <= m
  }

  /** The links between one AS and these. */
  function LinksOf(a: Asn, picks: set<Asn>): set<Relationships.PairKey> {
    set p | p in picks :: Relationships.KeyOf(a, p)
  }

  predicate AllTier(s: seq<Asn>, t: nat) {
    forall i :: 0 <= i < |s| ==> TierOf(s[i]) == t
  }

  /** The first n buyers have at most two upstreams, and the others none yet. */
  ghost predicate TwoThenNone(edges: Edges, buyers: seq<Asn>, n: nat, tier: seq<Asn>) {
    forall i :: 0 <= i < |buyers| ==> |Upstreams(edges, buyers[i], tier)| <= if i < n then 2 else 0
  }

  lemma NoneYet(edges: Edges, buyers: seq<Asn>, tier: seq<Asn>, m: nat)
    requires Within(edges, m) && AllTier(buyers, m + 1)
    ensures TwoThenNone(edges, buyers, 0, tier)
  {
    forall i | 0 <= i < |buyers|
      ensures Upstreams(edges, buyers[i], tier) == {}
    {
      forall p | p in tier
        ensures !Joined(edges, buyers[i], p)
      {
        assert TierOf(buyers[i]) == m + 1;
      }
    }
  }

  lemma SizeOfSubset(a: set<Asn>, b: set<Asn>)
    requires a <= b
    ensures |a| <= |b|
  {
    SubsetSize(a, b);
  }

  /** The links of one buyer to two others leave it with those two at most, and concern nobody else. */
  lemma TwoMore(before: Edges, after: Edges, buyers: seq<Asn>, n: nat, tier: seq<Asn>, t: nat, picks: set<Asn>, extra: set<Relationships.PairKey>)
    requires n < |buyers| && NoRepeats(buyers) && AllTier(buyers, t + 1) && AllTier(tier, t)
    requires TwoThenNone(before, buyers, n, tier)
    requires after.Keys <= before.Keys + LinksOf(buyers[n], picks) + extra
    requires |picks| <= 2 && forall p :: p in picks ==> TierOf(p) == t
    requires forall k :: k in extra ==> TierOf(k.lo) == TierOf(k.hi) == t + 1
    ensures TwoThenNone(after, buyers, n + 1, tier)
  {
    forall i | 0 <= i < |buyers|
      ensures |Upstreams(after, buyers[i], tier)| <= if i < n + 1 then 2 else 0
    {
      MoreUpstreams(before, after, buyers, n, i, tier, t, picks, extra);
      if i == n {
        assert Upstreams(before, buyers[n], tier) == {};
        SizeOfSubset(Upstreams(after, buyers[n], tier), picks);
      } else {
        SizeOfSubset(Upstreams(after, buyers[i], tier), Upstreams(before, buyers[i], tier));
      }
    }
  }

  lemma MoreUpstreams(before: Edges, after: Edges, buyers: seq<Asn>, n: nat, i: nat, tier: seq<Asn>, t: nat, picks: set<Asn>, extra: set<Relationships.PairKey>)
    requires n < |buyers| && i < |buyers| && NoRepeats(buyers) && AllTier(buyers, t + 1) && AllTier(tier, t)
    requires after.Keys <= before.Keys + LinksOf(buyers[n], picks) + extra
    requires forall p :: p in picks ==> TierOf(p) == t
    requires forall k :: k in extra ==> TierOf(k.lo) == TierOf(k.hi) == t + 1
    ensures Upstreams(after, buyers[i], tier) <= Upstreams(before, buyers[i], tier) + if i == n then picks else {}
  {
    hide TierOf;
    var b := buyers[i];
    forall p | p in Upstreams(after, b, tier)
      ensures p in Upstreams(before, b, tier) || (i == n && p in picks)
    {
      var k := Relationships.KeyOf(b, p);
      assert TierOf(p) == t && TierOf(b) == t + 1;
      if k in LinksOf(buyers[n], picks) {
        var q :| q in picks && k == Relationships.KeyOf(buyers[n], q);
        assert TierOf(buyers[n]) == t + 1 && TierOf(q) == t;
        assert b == buyers[n] && p == q;
      }
    }
  }

  /** The new links are among the ASes below the first t tiers, and not between the next two. */
  ghost predicate Below(before: Edges, after: Edges, t: nat) {
    forall k :: k in after && k !in before ==>
      && TierOf(k.lo) > t && TierOf(k.hi) > t
      && (TierOf(k.lo) == TierOf(k.hi) || TierOf(k.lo) > t + 1 || TierOf(k.hi) > t + 1)
  }

  lemma BelowOn(a: Edges, b: Edges, c: Edges, t: nat)
    requires Below(a, b, t) && Below(b, c, t)
    ensures Below(a, c, t)
  {
  }

  /** One more link, among the first m tiers or below the first t. */
  lemma OneMoreLink(before: Edges, after: Edges, a: Asn, c: Asn, m: nat, t: nat)
    requires after.Keys <= before.Keys + {Relationships.KeyOf(a, c)}
    ensures Within(before, m) && TierOf(a) <= m && TierOf(c) <= m ==> Within(after, m)
    ensures TierOf(a) > t && TierOf(c) > t && (TierOf(a) == TierOf(c) || TierOf(a) > t + 1 || TierOf(c) > t + 1) ==> Below(before, after, t)
  {
    hide TierOf;
  }

  lemma NothingBelow(edges: Edges, t: nat)
    ensures Below(edges, edges, t)
  {
  }

  /** The tiers are what they are called. */
  lemma TierTier()
    ensures AllTier(Tier(TIER1_BASE, TIER1_COUNT), 1) && AllTier(Tier(TRANSIT_BASE, TRANSIT_COUNT), 2)
    ensures AllTier(Tier(STUB_BASE, STUB_COUNT), 3)
    ensures NoRepeats(Tier(TRANSIT_BASE, TRANSIT_COUNT)) && NoRepeats(Tier(STUB_BASE, STUB_COUNT))
  {
  }

  lemma NoUpstreams(edges: Edges, buyers: seq<Asn>, tier: seq<Asn>)
    requires |buyers| > 0 && TwoThenNone(edges, buyers, 0, tier)
    ensures Upstreams(edges, buyers[0], tier) == {}
  {
  }

  lemma ExactlyTwo(edges: Edges, tier: seq<Asn>)
    requires tier == Tier(TIER1_BASE, TIER1_COUNT)
    requires Joined(edges, TRANSIT_BASE, TIER1_BASE) && Joined(edges, TRANSIT_BASE, TIER1_BASE + 1)
    requires Upstreams(edges, TRANSIT_BASE, tier) <= {TIER1_BASE, TIER1_BASE + 1}
    ensures Upstreams(edges, TRANSIT_BASE, tier) == {TIER1_BASE, TIER1_BASE + 1}
  {
    hide Joined;
    assert tier[0] in tier && tier[1] in tier;
  }

  lemma WithinMore(edges: Edges, m: nat)
    requires Within(edges, m)
    ensures Within(edges, m + 1)
  {
  }

  /** Such links change nobody's upstreams in the tier above. */
  lemma UpstreamsUntouched(before: Edges, after: Edges, buyers: seq<Asn>, tier: seq<Asn>, t: nat)
    requires AllTier(buyers, t + 1) && AllTier(tier, t)
    requires Below(before, after, t)
    requires AtMostTwo(before, buyers, tier)
    ensures AtMostTwo(after, buyers, tier)
    ensures forall i :: 0 <= i < |buyers| ==> Upstreams(after, buyers[i], tier) <= Upstreams(before, buyers[i], tier)
  {
    hide TierOf;
    forall i | 0 <= i < |buyers|
      ensures Upstreams(after, buyers[i], tier) <= Upstreams(before, buyers[i], tier)
      ensures |Upstreams(after, buyers[i], tier)| <= 2
    {
      forall p | p in Upstreams(after, buyers[i], tier)
        ensures p in Upstreams(before, buyers[i], tier)
      {
        assert TierOf(p) == t && TierOf(buyers[i]) == t + 1;
      }
      SizeOfSubset(Upstreams(after, buyers[i], tier), Upstreams(before, buyers[i], tier));
    }
  }

  lemma TierHasNoRepeats(base: Asn, count: nat)
    requires base + count < 0x1_0000_0000
    ensures NoRepeats(Tier(base, count))
  {
  }

  // ---- The prefix plan ----

  /** Who a planned prefix is for. */
  function PlannedOwner(p: Prefix): Asn
    requires |p.addr| == 4
  {
    if p.addr[0] == 11 then TIER1_BASE + p.addr[1]
    else if p.addr[0] == 12 then TRANSIT_BASE + p.addr[1]
    else STUB_BASE + p.addr[2]
  }

  /** Exactly the first prefixes of each tier are given out, to the ASes planned; of a stub's second
      prefix it is only known that it comes after its first. */
  ghost predicate GivenOut(prefixOwner: map<Prefix, Asn>, tier1s: nat, transits: nat, stubs: nat) {
    && (forall p :: p in prefixOwner ==>
      && InPlan(p) && prefixOwner[p] == PlannedOwner(p)
      && (p.addr[0] == 11 ==> p.addr[1] < tier1s)
      && (p.addr[0] == 12 ==> p.addr[1] < transits)
      && (p.addr[0] >= 100 ==> p.addr[2] < stubs))
    && (forall i: Byte :: i < tier1s ==> P16(11, i) in prefixOwner)
    && (forall i: Byte :: i < transits ==> P16(12, i) in prefixOwner)
    && (forall i: Byte :: i < stubs ==> P24(100, 0, i) in prefixOwner)
  }

  /** The prefixes given out so far leave p for the taking. */
  lemma NotTaken(prefixOwner: map<Prefix, Asn>, tier1s: nat, transits: nat, stubs: nat, p: Prefix)
    requires GivenOut(prefixOwner, tier1s, transits, stubs) && InPlan(p)
    requires p.addr[0] == 11 ==> p.addr[1] >= tier1s
    requires p.addr[0] == 12 ==> p.addr[1] >= transits
    requires p.addr[0] >= 100 ==> p.addr[2] >= stubs
    ensures p !in prefixOwner
  {
  }

  lemma StillGivenOut(before: map<Prefix, Asn>, after: map<Prefix, Asn>, p: Prefix, owner: Asn, t0: nat, r0: nat, s0: nat, t1: nat, r1: nat, s1: nat)
    requires GivenOut(before, t0, r0, s0) && InPlan(p) && owner == PlannedOwner(p)
    requires after == if p in before then before else before[p := owner]
    requires t1 == t0 || (t1 == t0 + 1 && t0 < 256 && p == P16(11, t0))
    requires r1 == r0 || (r1 == r0 + 1 && r0 < 256 && p == P16(12, r0))
    requires s1 == s0 || (s1 == s0 + 1 && s0 < 256 && p == P24(100, 0, s0))
    requires p.addr[0] == 11 ==> p.addr[1] < t1
    requires p.addr[0] == 12 ==> p.addr[1] < r1
    requires p.addr[0] >= 100 ==> p.addr[2] < s1
    ensures GivenOut(after, t1, r1, s1)
  {
    hide InPlan;
  }

  /** Of the prefixes in the order they are given out, all but every fifth get a ROA. */
  function WithRoa(given: seq<Prefix>): (ps: seq<Prefix>)
    ensures |ps| == |given| - |given| / ROA_SKIP_EVERY
    ensures forall p :: p in ps ==> p in given
  {
    if |given| == 0 then []
    else
      var n := |given| - 1;
      WithRoa(given[..n]) + if n % ROA_SKIP_EVERY != ROA_SKIP_EVERY - 1 then [given[n]] else []
  }

  lemma {:induction false} OneMoreRoa(given: seq<Prefix>, p: Prefix)
    ensures WithRoa(given + [p]) == WithRoa(given) + if |given| % ROA_SKIP_EVERY != ROA_SKIP_EVERY - 1 then [p] else []
  {
    assert (given + [p])[..|given|] == given;
  }

  /** A new prefix at its owner. */
  lemma PlanGrows(ownerPrefixes: Lists<Prefix>, prefixOwner: map<Prefix, Asn>, roaPrefixes: seq<Prefix>, owner: Asn, p: Prefix)
    requires PlanHolds(ownerPrefixes, prefixOwner, roaPrefixes)
    requires InPlan(p) && owner >= TIER1_BASE && p !in prefixOwner
    ensures PlanHolds(Push(ownerPrefixes, owner, p), prefixOwner[p := owner], roaPrefixes)
    ensures PlanHolds(Push(ownerPrefixes, owner, p), prefixOwner[p := owner], roaPrefixes + [p])
    ensures |At(Push(ownerPrefixes, owner, p), owner)| > 0
    ensures forall o: Asn :: |At(Push(ownerPrefixes, owner, p), o)| >= |At(ownerPrefixes, o)|
  {
    hide InPlan;
  }

  ghost predicate AllOwn(ownerPrefixes: Lists<Prefix>, owners: seq<Asn>) {
    forall o :: o in owners ==> |At(ownerPrefixes, o)| > 0
  }

  lemma RoaSetGrows(prefixOwner: map<Prefix, Asn>, ps: seq<Prefix>, i: nat)
    requires i < |ps|
    requires forall p :: p in ps ==> InPlan(p) && p in prefixOwner
    ensures RoaSet(prefixOwner, ps[..i + 1]) == RoaSet(prefixOwner, ps[..i]) + {Roa(ps[i], prefixOwner[ps[i]])}
  {
    assert ps[..i + 1] == ps[..i] + [ps[i]];
  }

  /** The VRPs of a list of prefixes. */
  ghost function RoaSet(prefixOwner: map<Prefix, Asn>, ps: seq<Prefix>): set<Tries.VRP>
    requires forall p :: p in ps ==> InPlan(p) && p in prefixOwner
  {
    set p | p in ps :: Roa(p, prefixOwner[p])
  }

  class Builder {
    const rel: Relationships.Builder
    var tier1: seq<Asn>
    var transit: seq<Asn>
    var stubs: seq<Asn>
    var adj: Adjacency
    var idx: nat
    var ownerPrefixes: Lists<Prefix>
    var prefixOwner: map<Prefix, Asn>
    var originables: seq<Asn>
    var roaPrefixes: seq<Prefix>
    ghost var given: seq<Prefix>

    ghost predicate Valid()
      reads this`adj, rel
    {
      rel.Valid() && Agrees(adj, rel.edges)
    }

    /** The prefixes, in the order they were given out, with their owners and ROAs. */
    ghost predicate Planned()
      reads this
    {
      && PlanHolds(ownerPrefixes, prefixOwner, roaPrefixes)
      && idx == |given| == |prefixOwner|
      && roaPrefixes == WithRoa(given)
    }

    constructor ()
      ensures Valid() && fresh(rel) && rel.edges == map[]
      ensures tier1 == [] && transit == [] && stubs == []
      ensures idx == 0 && ownerPrefixes == map[] && prefixOwner == map[] && originables == [] && roaPrefixes == []
      ensures given == []
    {
      given := [];
      rel := new Relationships.Builder();
      tier1, transit, stubs := [], [], [];
      adj := Adjacency(map[], map[], map[]);
      idx, ownerPrefixes, prefixOwner, originables, roaPrefixes := 0, map[], map[], [], [];
    }

    method AssignASNs()
      requires tier1 == [] && transit == [] && stubs == []
      modifies this`tier1, this`transit, this`stubs
      ensures tier1 == Tier(TIER1_BASE, TIER1_COUNT)
      ensures transit == Tier(TRANSIT_BASE, TRANSIT_COUNT)
      ensures stubs == Tier(STUB_BASE, STUB_COUNT)
    {
      for i := 0 to TIER1_COUNT
        invariant tier1 == Tier(TIER1_BASE, i) && transit == [] && stubs == []
      {
        tier1 := tier1 + [TIER1_BASE + i];
      }
      for i := 0 to TRANSIT_COUNT
        invariant tier1 == Tier(TIER1_BASE, TIER1_COUNT) && transit == Tier(TRANSIT_BASE, i) && stubs == []
      {
        transit := transit + [TRANSIT_BASE + i];
      }
      for i := 0 to STUB_COUNT
        invariant tier1 == Tier(TIER1_BASE, TIER1_COUNT) && transit == Tier(TRANSIT_BASE, TRANSIT_COUNT)
        invariant stubs == Tier(STUB_BASE, i)
      {
        stubs := stubs + [STUB_BASE + i];
      }
    }

    /** Records a relationship in the store and in the lists, or in neither. */
    method Edge(a: Asn, c: Asn, r: RelStatus)
      requires Valid()
      modifies this`adj, rel
      ensures Valid()
      ensures rel.edges == Relationships.AfterAdd(old(rel.edges), a, c, r)
    {
      if a != c && Relationships.Refusal(rel.edges, a, c, r).None? {
        LinkedAgrees(adj, rel.edges, a, c, r);
        ViewAfter(rel.edges, a, c, r, a, c);
      }
      var err := rel.Add(a, c, r);
      if err.Some? {
        return;
      }
      match r {
        case RelCustomer =>
          adj := adj.(customersOf := Push(adj.customersOf, a, c));
          adj := adj.(providersOf := Push(adj.providersOf, c, a));
        case RelProvider =>
          adj := adj.(providersOf := Push(adj.providersOf, a, c));
          adj := adj.(customersOf := Push(adj.customersOf, c, a));
        case RelPeer =>
          adj := adj.(peersOf := Push(adj.peersOf, a, c));
          adj := adj.(peersOf := Push(adj.peersOf, c, a));
        case _ =>
      }
    }

    /** Records a link the tiers ask for, or leaves it if it is there. */
    method Link(a: Asn, c: Asn, r: RelStatus)
      requires Valid() && Tiered(rel.edges)
      requires MayLink(a, c) && r == LinkOf(a, c)
      modifies this`adj, rel
      ensures Valid() && Tiered(rel.edges) && Keeps(old(rel.edges), rel.edges) && Joined(rel.edges, a, c)
      ensures rel.edges.Keys <= old(rel.edges).Keys + {Relationships.KeyOf(a, c)}
    {
      hide *;
      TieredGrows(rel.edges, a, c);
      Edge(a, c, r);
    }

    /** The tier-1s become a full peering mesh, and nobody else is linked. */
    method LinkTier1()
      requires Valid() && rel.edges == map[]
      requires tier1 == Tier(TIER1_BASE, TIER1_COUNT)
      modifies this`adj, rel
      ensures Valid() && Tiered(rel.edges) && MeshedBelow(rel.edges, TIER1_COUNT, TIER1_COUNT)
      ensures Within(rel.edges, 1)
    {
      hide Valid, Joined, MayLink, LinkOf;
      for i := 0 to |tier1|
        invariant Valid() && Tiered(rel.edges) && MeshedBelow(rel.edges, i, i + 1) && Within(rel.edges, 1)
      {
        LinkRow(i);
      }
    }

    /** The peers of tier-1 number i among the later ones. */
    method LinkRow(i: nat)
      requires Valid() && Tiered(rel.edges) && Within(rel.edges, 1)
      requires tier1 == Tier(TIER1_BASE, TIER1_COUNT) && i < TIER1_COUNT
      requires MeshedBelow(rel.edges, i, i + 1)
      modifies this`adj, rel
      ensures Valid() && Tiered(rel.edges) && MeshedBelow(rel.edges, i + 1, i + 2) && Within(rel.edges, 1)
    {
      hide Valid, Tiered, Joined, MeshedBelow, Keeps, Within, Below;
      for j := i + 1 to |tier1|
        invariant Valid() && Tiered(rel.edges) && MeshedBelow(rel.edges, i, j) && Within(rel.edges, 1)
      {
        ghost var before := rel.edges;
        Link(tier1[i], tier1[j], RelPeer);
        MeshGrows(before, rel.edges, i, j);
        OneMoreLink(before, rel.edges, tier1[i], tier1[j], 1, 0);
      }
      RowDone(rel.edges, i);
    }

    /** Each transit AS buys from one or two tier-1s, AS2001 from the first two, and some peer. */
    method LinkTransit()
      requires Valid() && Tiered(rel.edges) && Within(rel.edges, 1)
      requires tier1 == Tier(TIER1_BASE, TIER1_COUNT) && transit == Tier(TRANSIT_BASE, TRANSIT_COUNT)
      modifies this`adj, rel
      ensures Valid() && Tiered(rel.edges) && Keeps(old(rel.edges), rel.edges) && Within(rel.edges, 2)
      ensures AllUpstream(rel.edges, transit, tier1) && AtMostTwo(rel.edges, transit, tier1)
      ensures Upstreams(rel.edges, TRANSIT_BASE, tier1) == {TIER1_BASE, TIER1_BASE + 1}
    {
      hide Valid, Tiered, Joined, Keeps, AllUpstream, TierOf, Within, Below, Upstreams, LinksOf, NoRepeats;
      KeepsSelf(rel.edges);
      NoBuyers(rel.edges, transit, tier1);
      TierTier();
      NoneYet(rel.edges, transit, tier1, 1);
      WithinMore(rel.edges, 1);
      for idx := 0 to |transit|
        invariant Valid() && Tiered(rel.edges) && Keeps(old(rel.edges), rel.edges) && Within(rel.edges, 2)
        invariant AllUpstream(rel.edges, transit[..idx], tier1)
        invariant TwoThenNone(rel.edges, transit, idx, tier1)
        invariant idx > 0 ==> Upstreams(rel.edges, TRANSIT_BASE, tier1) <= {TIER1_BASE, TIER1_BASE + 1}
        invariant idx > 0 ==> Joined(rel.edges, TRANSIT_BASE, TIER1_BASE) && Joined(rel.edges, TRANSIT_BASE, TIER1_BASE + 1)
      {
        ghost var before := rel.edges;
        ghost var j: nat, picks := LinkUpstreams(idx);
        KeepsOn(old(rel.edges), before, rel.edges);
        OneMoreBuyer(before, rel.edges, transit, idx, tier1, j);
        TwoMore(before, rel.edges, transit, idx, tier1, 1, picks, {});
        MoreUpstreams(before, rel.edges, transit, idx, 0, tier1, 1, picks, {});
        if idx > 0 {
          StaysJoined(before, rel.edges, TRANSIT_BASE, TIER1_BASE);
          StaysJoined(before, rel.edges, TRANSIT_BASE, TIER1_BASE + 1);
        } else {
          NoUpstreams(before, transit, tier1);
        }
      }
      assert transit[..|transit|] == transit;
      ghost var bought := rel.edges;
      LinkTransitPeers();
      KeepsOn(old(rel.edges), bought, rel.edges);
      UpstreamStays(bought, rel.edges, transit, tier1);
      UpstreamsUntouched(bought, rel.edges, transit, tier1, 1);
      StaysJoined(bought, rel.edges, TRANSIT_BASE, TIER1_BASE);
      StaysJoined(bought, rel.edges, TRANSIT_BASE, TIER1_BASE + 1);
      assert transit[0] == TRANSIT_BASE;
      ExactlyTwo(rel.edges, tier1);
    }

    /** The upstreams of one transit AS: one or two tier-1s at random, both fixed ones for the first. */
    method LinkUpstreams(idx: nat) returns (ghost j: nat, ghost picks: set<Asn>)
      requires Valid() && Tiered(rel.edges) && Within(rel.edges, 2)
      requires tier1 == Tier(TIER1_BASE, TIER1_COUNT) && transit == Tier(TRANSIT_BASE, TRANSIT_COUNT)
      requires idx < |transit|
      modifies this`adj, rel
      ensures Valid() && Tiered(rel.edges) && Keeps(old(rel.edges), rel.edges) && Within(rel.edges, 2)
      ensures rel.edges.Keys <= old(rel.edges).Keys + LinksOf(transit[idx], picks)
      ensures |picks| <= 2 && forall p :: p in picks ==> TierOf(p) == 1
      ensures j < |tier1| && Joined(rel.edges, transit[idx], tier1[j])
      ensures idx == 0 ==> picks == {TIER1_BASE, TIER1_BASE + 1}
      ensures idx == 0 ==> Joined(rel.edges, TRANSIT_BASE, TIER1_BASE) && Joined(rel.edges, TRANSIT_BASE, TIER1_BASE + 1)
    {
      hide Valid, Tiered, Joined, Keeps, NoRepeats, Within, Below;
      var t := transit[idx];
      if idx == 0 {
        var first, second := tier1[0], tier1[1];
        Link(t, first, RelProvider);
        ghost var one := rel.edges;
        Link(t, second, RelProvider);
        KeepsOn(old(rel.edges), one, rel.edges);
        StaysJoined(one, rel.edges, t, first);
        OneMoreLink(old(rel.edges), one, t, first, 2, 0);
        OneMoreLink(one, rel.edges, t, second, 2, 0);
        j, picks := 0, {first, second};
      } else {
        var extra := IntN(2);
        TierHasNoRepeats(TIER1_BASE, TIER1_COUNT);
        var picked := PickDistinct(tier1, 1 + extra);
        assert picked[0] in tier1;
        j :| 0 <= j < |tier1| && tier1[j] == picked[0];
        LinkAll(t, picked);
        RepeatFreeSize(picked);
        picks := Members(picked);
      }
    }

    /** The upstreams picked for one transit AS. */
    method LinkAll(t: Asn, picked: seq<Asn>)
      requires Valid() && Tiered(rel.edges) && Within(rel.edges, 2) && InTier(t, TRANSIT_BASE, TRANSIT_COUNT)
      requires tier1 == Tier(TIER1_BASE, TIER1_COUNT) && forall a :: a in picked ==> a in tier1
      requires |picked| > 0
      modifies this`adj, rel
      ensures Valid() && Tiered(rel.edges) && Keeps(old(rel.edges), rel.edges) && Within(rel.edges, 2)
      ensures rel.edges.Keys <= old(rel.edges).Keys + LinksOf(t, Members(picked))
      ensures Joined(rel.edges, t, picked[0])
    {
      hide Valid, Tiered, Joined, Keeps, Within, Below;
      KeepsSelf(rel.edges);
      for k := 0 to |picked|
        invariant Valid() && Tiered(rel.edges) && Keeps(old(rel.edges), rel.edges) && Within(rel.edges, 2)
        invariant rel.edges.Keys <= old(rel.edges).Keys + LinksOf(t, Members(picked))
        invariant k > 0 ==> Joined(rel.edges, t, picked[0])
      {
        ghost var before := rel.edges;
        assert picked[k] in tier1 && picked[k] in Members(picked);
        Link(t, picked[k], RelProvider);
        assert Relationships.KeyOf(t, picked[k]) in LinksOf(t, Members(picked));
        KeepsOn(old(rel.edges), before, rel.edges);
        OneMoreLink(before, rel.edges, t, picked[k], 2, 0);
        if k > 0 {
          StaysJoined(before, rel.edges, t, picked[0]);
        }
      }
    }

    /** Some transit ASes peer. */
    method LinkTransitPeers()
      requires Valid() && Tiered(rel.edges) && Within(rel.edges, 2) && transit == Tier(TRANSIT_BASE, TRANSIT_COUNT)
      modifies this`adj, rel
      ensures Valid() && Tiered(rel.edges) && Keeps(old(rel.edges), rel.edges)
      ensures Within(rel.edges, 2) && Below(old(rel.edges), rel.edges, 1)
    {
      hide Valid, Tiered, Joined, Keeps, Within, Below;
      KeepsSelf(rel.edges);
      NothingBelow(rel.edges, 1);
      for i := 0 to |transit|
        invariant Valid() && Tiered(rel.edges) && Keeps(old(rel.edges), rel.edges)
        invariant Within(rel.edges, 2) && Below(old(rel.edges), rel.edges, 1)
      {
        for j := i + 1 to |transit|
          invariant Valid() && Tiered(rel.edges) && Keeps(old(rel.edges), rel.edges)
          invariant Within(rel.edges, 2) && Below(old(rel.edges), rel.edges, 1)
        {
          var peers := Chance();
          if peers {
            ghost var before := rel.edges;
            Link(transit[i], transit[j], RelPeer);
            KeepsOn(old(rel.edges), before, rel.edges);
            OneMoreLink(before, rel.edges, transit[i], transit[j], 2, 1);
            BelowOn(old(rel.edges), before, rel.edges, 1);
          }
        }
      }
    }

    /** Each stub buys from one or two transit ASes; some have a sibling. */
    method LinkStubs()
      requires Valid() && Tiered(rel.edges) && Within(rel.edges, 2)
      requires transit == Tier(TRANSIT_BASE, TRANSIT_COUNT) && stubs == Tier(STUB_BASE, STUB_COUNT)
      modifies this`adj, rel
      ensures Valid() && Tiered(rel.edges) && Keeps(old(rel.edges), rel.edges) && Below(old(rel.edges), rel.edges, 1)
      ensures AllUpstream(rel.edges, stubs, transit) && AtMostTwo(rel.edges, stubs, transit)
      ensures SiblingsBelow(rel.edges, STUB_COUNT)
    {
      hide Valid, Tiered, Joined, Keeps, AllUpstream, TierOf, SiblingsBelow, Within, Below, Upstreams, LinksOf, NoRepeats;
      KeepsSelf(rel.edges);
      NothingBelow(rel.edges, 1);
      NoBuyers(rel.edges, stubs, transit);
      TierTier();
      NoneYet(rel.edges, stubs, transit, 2);
      for idx := 0 to |stubs|
        invariant Valid() && Tiered(rel.edges) && Keeps(old(rel.edges), rel.edges) && Below(old(rel.edges), rel.edges, 1)
        invariant AllUpstream(rel.edges, stubs[..idx], transit) && SiblingsBelow(rel.edges, idx)
        invariant TwoThenNone(rel.edges, stubs, idx, transit)
      {
        ghost var before := rel.edges;
        ghost var j: nat, picks, sibling := LinkStub(idx);
        KeepsOn(old(rel.edges), before, rel.edges);
        BelowOn(old(rel.edges), before, rel.edges, 1);
        OneMoreBuyer(before, rel.edges, stubs, idx, transit, j);
        TwoMore(before, rel.edges, stubs, idx, transit, 2, picks, sibling);
        SiblingsGrow(before, rel.edges, idx);
      }
      assert stubs[..|stubs|] == stubs;
    }

    /** The links of one stub. */
    method LinkStub(idx: nat) returns (ghost j: nat, ghost picks: set<Asn>, ghost sibling: set<Relationships.PairKey>)
      requires Valid() && Tiered(rel.edges)
      requires transit == Tier(TRANSIT_BASE, TRANSIT_COUNT) && stubs == Tier(STUB_BASE, STUB_COUNT)
      requires idx < |stubs|
      modifies this`adj, rel
      ensures Valid() && Tiered(rel.edges) && Keeps(old(rel.edges), rel.edges) && Below(old(rel.edges), rel.edges, 1)
      ensures rel.edges.Keys <= old(rel.edges).Keys + LinksOf(stubs[idx], picks) + sibling
      ensures |picks| <= 2 && forall p :: p in picks ==> TierOf(p) == 2
      ensures forall k :: k in sibling ==> TierOf(k.lo) == TierOf(k.hi) == 3
      ensures j < |transit| && Joined(rel.edges, stubs[idx], transit[j])
      ensures idx + 1 < STUB_COUNT && idx % SIBLING_EVERY == 0 ==> Joined(rel.edges, STUB_BASE + idx, STUB_BASE + idx + 1)
    {
      hide Valid, Tiered, Joined, Keeps, Within, Below;
      var s := stubs[idx];
      j, picks := LinkStubUpstreams(idx);
      ghost var two := rel.edges;
      sibling := {};
      if idx % SIBLING_EVERY == 0 && idx + 1 < |stubs| {
        Link(s, stubs[idx + 1], RelSibling);
        KeepsOn(old(rel.edges), two, rel.edges);
        StaysJoined(two, rel.edges, s, transit[j]);
        OneMoreLink(two, rel.edges, s, stubs[idx + 1], 3, 1);
        BelowOn(old(rel.edges), two, rel.edges, 1);
        sibling := {Relationships.KeyOf(s, stubs[idx + 1])};
      }
    }

    /** One transit AS to buy from, or two. */
    method LinkStubUpstreams(idx: nat) returns (ghost j: nat, ghost picks: set<Asn>)
      requires Valid() && Tiered(rel.edges)
      requires transit == Tier(TRANSIT_BASE, TRANSIT_COUNT) && stubs == Tier(STUB_BASE, STUB_COUNT)
      requires idx < |stubs|
      modifies this`adj, rel
      ensures Valid() && Tiered(rel.edges) && Keeps(old(rel.edges), rel.edges) && Below(old(rel.edges), rel.edges, 1)
      ensures rel.edges.Keys <= old(rel.edges).Keys + LinksOf(stubs[idx], picks)
      ensures |picks| <= 2 && forall p :: p in picks ==> TierOf(p) == 2
      ensures j < |transit| && Joined(rel.edges, stubs[idx], transit[j])
    {
      hide Valid, Tiered, Joined, Keeps, Within, Below;
      var s := stubs[idx];
      var f := IntN(|transit|);
      j := f;
      var first := transit[f];
      Link(s, first, RelProvider);
      OneMoreLink(old(rel.edges), rel.edges, s, first, 3, 1);
      picks := {first};
      ghost var one := rel.edges;
      var more := Chance();
      if more {
        var n := IntN(|transit|);
        var second := transit[n];
        if second != first {
          Link(s, second, RelProvider);
          KeepsOn(old(rel.edges), one, rel.edges);
          StaysJoined(one, rel.edges, s, first);
          OneMoreLink(one, rel.edges, s, second, 3, 1);
          BelowOn(old(rel.edges), one, rel.edges, 1);
          picks := {first, second};
        }
      }
    }

    // ---- Prefixes ----

    /** Gives a prefix to an owner unless it is taken; every fifth one given gets no ROA. */
    method Alloc(owner: Asn, p: Prefix)
      requires InPlan(p) && owner >= TIER1_BASE && Planned()
      modifies this`idx, this`ownerPrefixes, this`prefixOwner, this`roaPrefixes, this`given
      ensures Planned()
      ensures given == if p in old(prefixOwner) then old(given) else old(given) + [p]
      ensures prefixOwner == if p in old(prefixOwner) then old(prefixOwner) else old(prefixOwner)[p := owner]
      ensures p !in old(prefixOwner) ==> |At(ownerPrefixes, owner)| > 0
      ensures forall o: Asn :: |At(ownerPrefixes, o)| >= |At(old(ownerPrefixes), o)|
    {
      hide InPlan, PlanHolds, At, Push, WithRoa;
      if p in prefixOwner {
        return;
      }
      PlanGrows(ownerPrefixes, prefixOwner, roaPrefixes, owner, p);
      OneMoreRoa(given, p);
      prefixOwner := prefixOwner[p := owner];
      ownerPrefixes := Push(ownerPrefixes, owner, p);
      if idx % ROA_SKIP_EVERY != ROA_SKIP_EVERY - 1 {
        roaPrefixes := roaPrefixes + [p];
      }
      idx, given := idx + 1, given + [p];
    }

    method AllocatePrefixes()
      requires tier1 == Tier(TIER1_BASE, TIER1_COUNT) && transit == Tier(TRANSIT_BASE, TRANSIT_COUNT)
      requires stubs == Tier(STUB_BASE, STUB_COUNT)
      requires idx == 0 && given == [] && ownerPrefixes == map[] && prefixOwner == map[] && originables == [] && roaPrefixes == []
      modifies this`idx, this`ownerPrefixes, this`prefixOwner, this`roaPrefixes, this`originables, this`given
      ensures Planned() && GivenOut(prefixOwner, TIER1_COUNT, TRANSIT_COUNT, STUB_COUNT)
      ensures TIER1_COUNT + TRANSIT_COUNT + STUB_COUNT <= idx <= TIER1_COUNT + TRANSIT_COUNT + 2 * STUB_COUNT
      ensures originables == tier1 + transit + stubs
      ensures AllOwn(ownerPrefixes, originables)
    {
      hide PlanHolds, GivenOut, At, AllOwn, Planned, Tier;
      PlanStarts();
      AllocTier1();
      ghost var own := ownerPrefixes;
      AllocTransit();
      AllocStubs();
      EveryoneOwns(own);
      FindOriginables();
    }

    lemma PlanStarts()
      requires idx == 0 && given == [] && ownerPrefixes == map[] && prefixOwner == map[] && roaPrefixes == []
      ensures Planned() && GivenOut(prefixOwner, 0, 0, 0)
    {
    }

    lemma EveryoneOwns(own: Lists<Prefix>)
      requires AllOwn(own, tier1) && AllOwn(ownerPrefixes, stubs)
      requires AllOwn(ownerPrefixes, transit)
      requires forall o: Asn :: |At(ownerPrefixes, o)| >= |At(own, o)|
      ensures AllOwn(ownerPrefixes, tier1 + transit + stubs)
    {
      hide At;
    }

    /** The ASes with a prefix, in order. */
    method FindOriginables()
      requires Planned() && originables == [] && AllOwn(ownerPrefixes, tier1 + transit + stubs)
      modifies this`originables
      ensures Planned() && originables == tier1 + transit + stubs
    {
      hide At, PlanHolds;
      var all := tier1 + transit + stubs;
      for n := 0 to |all|
        invariant Planned() && originables == all[..n]
      {
        var asn := all[n];
        assert asn in all;
        if |At(ownerPrefixes, asn)| > 0 {
          originables := originables + [asn];
        }
      }
    }

    method AllocTier1()
      requires tier1 == Tier(TIER1_BASE, TIER1_COUNT)
      requires Planned() && idx == 0 && GivenOut(prefixOwner, 0, 0, 0)
      modifies this`idx, this`ownerPrefixes, this`prefixOwner, this`roaPrefixes, this`given
      ensures Planned() && idx == TIER1_COUNT && GivenOut(prefixOwner, TIER1_COUNT, 0, 0)
      ensures AllOwn(ownerPrefixes, tier1)
    {
      hide PlanHolds, GivenOut, At, WithRoa;
      for i := 0 to |tier1|
        invariant Planned() && idx == i && GivenOut(prefixOwner, i, 0, 0)
        invariant AllOwn(ownerPrefixes, tier1[..i])
      {
        ghost var before := prefixOwner;
        NotTaken(before, i, 0, 0, P16(11, i));
        Alloc(tier1[i], P16(11, i));
        StillGivenOut(before, prefixOwner, P16(11, i), tier1[i], i, 0, 0, i + 1, 0, 0);
        assert tier1[..i + 1] == tier1[..i] + [tier1[i]];
      }
      assert tier1[..|tier1|] == tier1;
    }

    method AllocTransit()
      requires transit == Tier(TRANSIT_BASE, TRANSIT_COUNT)
      requires Planned() && idx == TIER1_COUNT && GivenOut(prefixOwner, TIER1_COUNT, 0, 0)
      modifies this`idx, this`ownerPrefixes, this`prefixOwner, this`roaPrefixes, this`given
      ensures Planned() && idx == TIER1_COUNT + TRANSIT_COUNT && GivenOut(prefixOwner, TIER1_COUNT, TRANSIT_COUNT, 0)
      ensures AllOwn(ownerPrefixes, transit)
      ensures forall o: Asn :: |At(ownerPrefixes, o)| >= |At(old(ownerPrefixes), o)|
    {
      hide PlanHolds, GivenOut, At, WithRoa;
      for m := 0 to |transit|
        invariant Planned() && idx == TIER1_COUNT + m && GivenOut(prefixOwner, TIER1_COUNT, m, 0)
        invariant AllOwn(ownerPrefixes, transit[..m])
        invariant forall o: Asn :: |At(ownerPrefixes, o)| >= |At(old(ownerPrefixes), o)|
      {
        ghost var before := prefixOwner;
        NotTaken(before, TIER1_COUNT, m, 0, P16(12, m));
        Alloc(transit[m], P16(12, m));
        StillGivenOut(before, prefixOwner, P16(12, m), transit[m], TIER1_COUNT, m, 0, TIER1_COUNT, m + 1, 0);
        assert transit[..m + 1] == transit[..m] + [transit[m]];
      }
      assert transit[..|transit|] == transit;
    }

    method AllocStubs()
      requires stubs == Tier(STUB_BASE, STUB_COUNT)
      requires Planned() && idx == TIER1_COUNT + TRANSIT_COUNT && GivenOut(prefixOwner, TIER1_COUNT, TRANSIT_COUNT, 0)
      modifies this`idx, this`ownerPrefixes, this`prefixOwner, this`roaPrefixes, this`given
      ensures Planned() && GivenOut(prefixOwner, TIER1_COUNT, TRANSIT_COUNT, STUB_COUNT)
      ensures old(idx) + STUB_COUNT <= idx <= old(idx) + 2 * STUB_COUNT
      ensures AllOwn(ownerPrefixes, stubs)
      ensures AllOwn(old(ownerPrefixes), transit) ==> AllOwn(ownerPrefixes, transit)
      ensures forall o: Asn :: |At(ownerPrefixes, o)| >= |At(old(ownerPrefixes), o)|
    {
      hide Planned, GivenOut, At, WithRoa;
      for k := 0 to |stubs|
        invariant Planned() && GivenOut(prefixOwner, TIER1_COUNT, TRANSIT_COUNT, k)
        invariant old(idx) + k <= idx <= old(idx) + 2 * k
        invariant AllOwn(ownerPrefixes, stubs[..k])
        invariant forall o: Asn :: |At(ownerPrefixes, o)| >= |At(old(ownerPrefixes), o)|
      {
        AllocStub(k, stubs[k]);
        assert stubs[..k + 1] == stubs[..k] + [stubs[k]];
      }
      assert stubs[..|stubs|] == stubs;
    }

    /** The one or two prefixes of a stub. */
    method AllocStub(k: Byte, asn: Asn)
      requires k < STUB_COUNT && asn == STUB_BASE + k
      requires Planned() && GivenOut(prefixOwner, TIER1_COUNT, TRANSIT_COUNT, k)
      modifies this`idx, this`ownerPrefixes, this`prefixOwner, this`roaPrefixes, this`given
      ensures Planned() && GivenOut(prefixOwner, TIER1_COUNT, TRANSIT_COUNT, k + 1)
      ensures old(idx) + 1 <= idx <= old(idx) + 2
      ensures |At(ownerPrefixes, asn)| > 0
      ensures forall o: Asn :: |At(ownerPrefixes, o)| >= |At(old(ownerPrefixes), o)|
    {
      hide PlanHolds, GivenOut, At, WithRoa;
      ghost var before := prefixOwner;
      NotTaken(before, TIER1_COUNT, TRANSIT_COUNT, k, P24(100, 0, k));
      Alloc(asn, P24(100, 0, k));
      StillGivenOut(before, prefixOwner, P24(100, 0, k), asn, TIER1_COUNT, TRANSIT_COUNT, k, TIER1_COUNT, TRANSIT_COUNT, k + 1);
      var second := Chance();
      if second {
        ghost var after := prefixOwner;
        Alloc(asn, P24(101, 0, k));
        StillGivenOut(after, prefixOwner, P24(101, 0, k), asn, TIER1_COUNT, TRANSIT_COUNT, k + 1, TIER1_COUNT, TRANSIT_COUNT, k + 1);
      }
    }

    /** The VRP store: one exact-length VRP for each prefix with a ROA. */
    method BuildVRP() returns (s: Rpki.VRPStore)
      requires forall p :: p in roaPrefixes ==> p in prefixOwner && InPlan(p)
      ensures fresh(s) && fresh(s.repr) && s.Valid()
      ensures s.vrps == RoaSet(prefixOwner, roaPrefixes)
    {
      hide RoaSet, Roa, Rpki.InRange, Rpki.Stored, Tries.IsTrie, Rpki.Contents, Rpki.Rooted;
      var vb := new Rpki.Builder();
      assert RoaSet(prefixOwner, roaPrefixes[..0]) == {} by {
        NoRoas(prefixOwner, roaPrefixes);
      }
      for i := 0 to |roaPrefixes|
        invariant vb.Valid() && fresh(vb) && fresh(vb.repr)
        invariant vb.seen == RoaSet(prefixOwner, roaPrefixes[..i])
      {
        var p := roaPrefixes[i];
        RoaStored(p, prefixOwner[p]);
        RoaSetGrows(prefixOwner, roaPrefixes, i);
        var err := vb.Add(Roa(p, prefixOwner[p]));
      }
      assert roaPrefixes[..|roaPrefixes|] == roaPrefixes;
      s := vb.Build();
    }
  }

  lemma NoRoas(prefixOwner: map<Prefix, Asn>, ps: seq<Prefix>)
    requires forall p :: p in ps ==> InPlan(p) && p in prefixOwner
    ensures RoaSet(prefixOwner, ps[..0]) == {}
  {
  }

  /** The links the demo topology has: a full mesh of tier-1s, one or two upstreams for everyone below, the
      siblings, and nothing the tiers do not allow. */
  ghost predicate LinkedAsPlanned(t: Topology) {
    && Tiered(t.rel.edges)
    && MeshedBelow(t.rel.edges, TIER1_COUNT, TIER1_COUNT)
    && AllUpstream(t.rel.edges, t.transit, t.tier1) && AtMostTwo(t.rel.edges, t.transit, t.tier1)
    && AllUpstream(t.rel.edges, t.stubs, t.transit) && AtMostTwo(t.rel.edges, t.stubs, t.transit)
    && Upstreams(t.rel.edges, TRANSIT_BASE, t.tier1) == {TIER1_BASE, TIER1_BASE + 1}
    && SiblingsBelow(t.rel.edges, STUB_COUNT)
  }

  /** The prefixes the demo topology has, and how many of them have a ROA: all but every fifth. */
  ghost predicate AllocatedAsPlanned(t: Topology) {
    && GivenOut(t.prefixOwner, TIER1_COUNT, TRANSIT_COUNT, STUB_COUNT)
    && 150 <= |t.prefixOwner| <= 270
    && |t.roaPrefixes| == |t.prefixOwner| - |t.prefixOwner| / ROA_SKIP_EVERY
  }

  /** Main result: for every random choice the built topology has what the scenarios rely on, the
      links and prefixes planned, and a VRP store that holds exactly its ROAs. */
  method BuildDefault() returns (t: Topology, vrp: Rpki.VRPStore)
    ensures WellFormed(t) && HasLeakSite(t) && LinkedAsPlanned(t) && AllocatedAsPlanned(t)
    ensures t.tier1 == Tier(TIER1_BASE, TIER1_COUNT) && t.transit == Tier(TRANSIT_BASE, TRANSIT_COUNT)
    ensures t.stubs == Tier(STUB_BASE, STUB_COUNT)
    ensures fresh(vrp) && fresh(vrp.repr) && vrp.Valid() && vrp.vrps == Roas(t)
  {
    hide *;
    var b := new Builder();
    NothingTiered(b.rel.edges);
    b.AssignASNs();
    b.LinkTier1();
    ghost var mesh := b.rel.edges;
    b.LinkTransit();
    ghost var upstreams := b.rel.edges;
    b.LinkStubs();
    b.AllocatePrefixes();
    ValidParts(b);
    var rel := b.rel.Build();
    PlannedParts(b);
    vrp := b.BuildVRP();
    t := Topology(b.tier1, b.transit, b.stubs, rel, b.adj, b.ownerPrefixes, b.prefixOwner, b.originables, b.roaPrefixes);
    LinksFinished(t, mesh, upstreams);
    Finished(t);
  }

  lemma NothingTiered(edges: Edges)
    ensures edges == map[] ==> Tiered(edges)
  {
  }

  lemma ValidParts(b: Builder)
    requires b.Valid()
    ensures b.rel.Valid() && Agrees(b.adj, b.rel.edges)
  {
  }

  lemma PlannedParts(b: Builder)
    requires b.Planned()
    ensures PlanHolds(b.ownerPrefixes, b.prefixOwner, b.roaPrefixes)
    ensures forall p :: p in b.roaPrefixes ==> InPlan(p) && p in b.prefixOwner
    ensures |b.roaPrefixes| == |b.prefixOwner| - |b.prefixOwner| / ROA_SKIP_EVERY && |b.prefixOwner| == b.idx
  {
  }

  lemma LinksFinished(t: Topology, mesh: Edges, upstreams: Edges)
    requires t.tier1 == Tier(TIER1_BASE, TIER1_COUNT) && t.transit == Tier(TRANSIT_BASE, TRANSIT_COUNT)
    requires MeshedBelow(mesh, TIER1_COUNT, TIER1_COUNT) && Keeps(mesh, upstreams) && Keeps(upstreams, t.rel.edges)
    requires Below(upstreams, t.rel.edges, 1)
    requires AllUpstream(upstreams, t.transit, t.tier1) && AtMostTwo(upstreams, t.transit, t.tier1)
    requires Upstreams(upstreams, TRANSIT_BASE, t.tier1) == {TIER1_BASE, TIER1_BASE + 1}
    ensures MeshedBelow(t.rel.edges, TIER1_COUNT, TIER1_COUNT)
    ensures AllUpstream(t.rel.edges, t.transit, t.tier1) && AtMostTwo(t.rel.edges, t.transit, t.tier1)
    ensures Upstreams(t.rel.edges, TRANSIT_BASE, t.tier1) == {TIER1_BASE, TIER1_BASE + 1}
    ensures Joined(t.rel.edges, TRANSIT_BASE, TIER1_BASE) && Joined(t.rel.edges, TRANSIT_BASE, TIER1_BASE + 1)
  {
    hide MeshedBelow, AllUpstream, AtMostTwo, Keeps, Below, Joined;
    MeshStays(mesh, upstreams);
    MeshStays(upstreams, t.rel.edges);
    UpstreamStays(upstreams, t.rel.edges, t.transit, t.tier1);
    TierTier();
    UpstreamsUntouched(upstreams, t.rel.edges, t.transit, t.tier1, 1);
    assert t.transit[0] == TRANSIT_BASE;
    assert TIER1_BASE in Upstreams(upstreams, TRANSIT_BASE, t.tier1) && TIER1_BASE + 1 in Upstreams(upstreams, TRANSIT_BASE, t.tier1);
    StaysJoined(upstreams, t.rel.edges, TRANSIT_BASE, TIER1_BASE);
    StaysJoined(upstreams, t.rel.edges, TRANSIT_BASE, TIER1_BASE + 1);
    ExactlyTwo(t.rel.edges, t.tier1);
  }

  lemma Finished(t: Topology)
    requires Agrees(t.adj, t.rel.edges) && PlanHolds(t.ownerPrefixes, t.prefixOwner, t.roaPrefixes)
    requires t.tier1 == Tier(TIER1_BASE, TIER1_COUNT) && t.transit == Tier(TRANSIT_BASE, TRANSIT_COUNT)
    requires t.stubs == Tier(STUB_BASE, STUB_COUNT)
    requires t.originables == t.tier1 + t.transit + t.stubs && AllOwn(t.ownerPrefixes, t.originables)
    requires Tiered(t.rel.edges)
    requires MeshedBelow(t.rel.edges, TIER1_COUNT, TIER1_COUNT) && AllUpstream(t.rel.edges, t.transit, t.tier1)
    requires AllUpstream(t.rel.edges, t.stubs, t.transit) && SiblingsBelow(t.rel.edges, STUB_COUNT)
    requires AtMostTwo(t.rel.edges, t.transit, t.tier1) && AtMostTwo(t.rel.edges, t.stubs, t.transit)
    requires Upstreams(t.rel.edges, TRANSIT_BASE, t.tier1) == {TIER1_BASE, TIER1_BASE + 1}
    requires Joined(t.rel.edges, TRANSIT_BASE, TIER1_BASE) && Joined(t.rel.edges, TRANSIT_BASE, TIER1_BASE + 1)
    requires GivenOut(t.prefixOwner, TIER1_COUNT, TRANSIT_COUNT, STUB_COUNT)
    requires TIER1_COUNT + TRANSIT_COUNT + STUB_COUNT <= |t.prefixOwner| <= TIER1_COUNT + TRANSIT_COUNT + 2 * STUB_COUNT
    requires |t.roaPrefixes| == |t.prefixOwner| - |t.prefixOwner| / ROA_SKIP_EVERY
    ensures WellFormed(t) && HasLeakSite(t) && LinkedAsPlanned(t) && AllocatedAsPlanned(t)
    ensures Roas(t) == RoaSet(t.prefixOwner, t.roaPrefixes)
  {
    hide Agrees, View, At, Tiered, MeshedBelow, AllUpstream, AtMostTwo, Upstreams, SiblingsBelow, Joined, GivenOut;
    TieredView(t.rel.edges, TRANSIT_BASE, TIER1_BASE);
    TieredView(t.rel.edges, TRANSIT_BASE, TIER1_BASE + 1);
    assert t.tier1[0] in t.originables;
    forall s | s in t.stubs
      ensures s >= STUB_BASE
    {
      var i :| 0 <= i < |t.stubs| && t.stubs[i] == s;
    }
  }
}
