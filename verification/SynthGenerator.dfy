/** The synthetic stream (internal/synth/scenarios.go and generator.go), and the verdict the real
    classifier gives each of its events. */
module SynthGenerator {
  import opened Bgp
  import opened SynthTopology
  import Rpki
  import ValleyFree
  import C = Classify
  import Quotients

  const MAX_CLIMB := 4
  const MAX_DESCEND := 2
  const HIJACK_TRIES := 8
  const RECENT_CAP := 256
  const MIN_RECENT_FOR_WITHDRAW := 8

  // ---- Paths that are valley-free by construction ----

  /** The relationship crossed on step k of a propagation path. */
  function MoveOf(t: Topology, prop: seq<Asn>, k: nat): RelStatus
    requires k + 1 < |prop|
  {
    View(t.rel.edges, prop[k], prop[k + 1])
  }

  /** prop climbs to position u, crosses a peer link if `peered`, then descends. */
  ghost predicate UpPeerDown(t: Topology, prop: seq<Asn>, u: nat, peered: bool) {
    && u < |prop|
    && (peered ==> u + 1 < |prop|)
    && forall k :: 0 <= k < |prop| - 1 ==>
      MoveOf(t, prop, k) == if k < u then RelProvider else if k == u && peered then RelPeer else RelCustomer
  }

  /** One more step down, or up, or across. */
  lemma PathGrows(t: Topology, prop: seq<Asn>, u: nat, peered: bool, next: Asn)
    requires |prop| > 0 && UpPeerDown(t, prop, u, peered) && NoRepeats(prop) && next !in prop
    ensures NoRepeats(prop + [next])
    ensures View(t.rel.edges, prop[|prop| - 1], next) == RelCustomer ==> UpPeerDown(t, prop + [next], u, peered)
    ensures View(t.rel.edges, prop[|prop| - 1], next) == RelProvider && u == |prop| - 1 ==> UpPeerDown(t, prop + [next], |prop|, false)
    ensures View(t.rel.edges, prop[|prop| - 1], next) == RelPeer && u == |prop| - 1 ==> UpPeerDown(t, prop + [next], u, true)
  {
    hide View;
    var longer := prop + [next];
    forall k | 0 <= k < |longer| - 1
      ensures MoveOf(t, longer, k) == if k == |prop| - 1 then View(t.rel.edges, prop[|prop| - 1], next) else MoveOf(t, prop, k)
    {
    }
  }

  /** What an adjacency list says is what the oracle says. */
  lemma ListedLink(t: Topology, a: Asn, b: Asn)
    requires Agrees(t.adj, t.rel.edges)
    ensures b in At(t.adj.providersOf, a) ==> View(t.rel.edges, a, b) == RelProvider
    ensures b in At(t.adj.customersOf, a) ==> View(t.rel.edges, a, b) == RelCustomer
    ensures b in At(t.adj.peersOf, a) ==> View(t.rel.edges, a, b) == RelPeer
    ensures C.Oracle(t.rel)(a, b) == View(t.rel.edges, a, b)
  {
  }

  predicate IsTier1(asn: Asn) {
    InTier(asn, TIER1_BASE, TIER1_COUNT)
  }

  /** A propagation path: climb providers to a tier-1, maybe cross one peer link, maybe descend. */
  method Propagate(t: Topology, origin: Asn) returns (prop: seq<Asn>, ghost u: nat, ghost peered: bool)
    requires Agrees(t.adj, t.rel.edges)
    ensures 1 <= |prop| <= MAX_CLIMB + 1 + MAX_DESCEND
    ensures NoRepeats(prop) && prop[0] == origin && UpPeerDown(t, prop, u, peered)
  {
    hide Agrees, View, UpPeerDown, NoRepeats, At, IsTier1;
    var cur;
    prop, cur, u := Climb(t, origin);
    peered := false;
    var crosses := Chance();
    if crosses {
      var peers := At(t.adj.peersOf, cur);
      if |peers| > 0 {
        var i := IntN(|peers|);
        var pr := peers[i];
        if pr !in prop {
          ListedLink(t, cur, pr);
          PathGrows(t, prop, u, peered, pr);
          prop, cur, peered := prop + [pr], pr, true;
        }
      }
    }
    var descends := Chance();
    if descends {
      for steps := 0 to MAX_DESCEND
        invariant 1 <= |prop| <= MAX_CLIMB + 1 + steps
        invariant prop[0] == origin && cur == prop[|prop| - 1]
        invariant NoRepeats(prop) && UpPeerDown(t, prop, u, peered)
      {
        var cs := At(t.adj.customersOf, cur);
        if |cs| == 0 {
          break;
        }
        var i := IntN(|cs|);
        var nx := cs[i];
        if nx in prop {
          break;
        }
        ListedLink(t, cur, nx);
        PathGrows(t, prop, u, peered, nx);
        prop, cur := prop + [nx], nx;
      }
    }
  }

  /** The uphill arm: customer to provider until a tier-1 or no more providers. */
  method Climb(t: Topology, origin: Asn) returns (prop: seq<Asn>, cur: Asn, ghost u: nat)
    requires Agrees(t.adj, t.rel.edges)
    ensures 1 <= |prop| <= MAX_CLIMB && u == |prop| - 1
    ensures prop[0] == origin && cur == prop[|prop| - 1]
    ensures NoRepeats(prop) && UpPeerDown(t, prop, u, false)
    ensures forall k :: 0 < k < |prop| - 1 ==> !IsTier1(prop[k])
    ensures |prop| == MAX_CLIMB || (|prop| > 1 && IsTier1(cur))
      || At(t.adj.providersOf, cur) == [] || exists p :: p in At(t.adj.providersOf, cur) && p in prop
  {
    hide Agrees, View, UpPeerDown, NoRepeats, At, IsTier1;
    prop, cur, u := [origin], origin, 0;
    StartsUp(t, origin);
    while |prop| < MAX_CLIMB
      invariant 1 <= |prop| <= MAX_CLIMB && u == |prop| - 1
      invariant prop[0] == origin && cur == prop[|prop| - 1]
      invariant NoRepeats(prop) && UpPeerDown(t, prop, u, false)
      invariant forall k :: 0 < k < |prop| ==> !IsTier1(prop[k])
    {
      var ps := At(t.adj.providersOf, cur);
      if |ps| == 0 {
        break;
      }
      var i := IntN(|ps|);
      var next := ps[i];
      if next in prop {
        assert next in ps;
        break;
      }
      ListedLink(t, cur, next);
      PathGrows(t, prop, u, false, next);
      prop, cur, u := prop + [next], next, |prop|;
      if IsTier1(cur) {
        break;
      }
    }
  }

  /** Main result: for every topology whose lists agree with its store and every random choice, the
      path is repeat-free, at most seven ASes long, ends in the origin, has no unknown hop, and is
      never called a leak. */
  method ValidPath(t: Topology, origin: Asn) returns (wire: seq<Asn>)
    requires Agrees(t.adj, t.rel.edges)
    ensures 1 <= |wire| <= MAX_CLIMB + 1 + MAX_DESCEND
    ensures NoRepeats(wire) && wire[|wire| - 1] == origin
    ensures exists u, peered :: UpPeerDown(t, ValleyFree.Reverse(wire), u, peered)
    ensures !ValleyFree.PathVerdict(wire, false, C.Oracle(t.rel)).isLeak
    ensures !ValleyFree.PathVerdict(wire, false, C.Oracle(t.rel)).hadUnknown
  {
    hide ValleyFree.PathVerdict, ValleyFree.Reverse, Agrees, View, UpPeerDown, NoRepeats, C.Oracle;
    var prop;
    ghost var u, peered;
    prop, u, peered := Propagate(t, origin);
    wire := ReverseU32(prop);
    ReversedPath(prop);
    ByConstruction(t, wire, u, peered, false);
  }

  lemma StartsUp(t: Topology, origin: Asn)
    ensures UpPeerDown(t, [origin], 0, false) && NoRepeats([origin])
  {
  }

  lemma ReversedPath(prop: seq<Asn>)
    requires |prop| > 0
    ensures ValleyFree.Reverse(ValleyFree.Reverse(prop)) == prop
    ensures NoRepeats(prop) ==> NoRepeats(ValleyFree.Reverse(prop))
    ensures ValleyFree.Reverse(prop)[|prop| - 1] == prop[0]
  {
  }

  method ReverseU32(s: seq<Asn>) returns (out: seq<Asn>)
    ensures out == ValleyFree.Reverse(s)
  {
    var a := new Asn[|s|];
    for i := 0 to |s|
      invariant forall k :: 0 <= k < i ==> a[|s| - 1 - k] == s[k]
    {
      a[|s| - 1 - i] := s[i];
    }
    out := a[..];
    forall k | 0 <= k < |s|
      ensures out[k] == s[|s| - 1 - k]
    {
      assert a[|s| - 1 - (|s| - 1 - k)] == s[|s| - 1 - k];
    }
  }

  /** A path without repeats is its own deduped form. */
  lemma {:induction false} NothingToDedupe(path: seq<Asn>)
    requires NoRepeats(path)
    ensures ValleyFree.Dedupe(path) == path
  {
    if |path| > 0 {
      NothingToDedupe(path[..|path| - 1]);
    }
  }

  /** Main result: a path built up, across and down is never called a leak, and every hop of it has a
      known relationship. */
  lemma ByConstruction(t: Topology, wire: seq<Asn>, u: nat, peered: bool, hasASSet: bool)
    requires NoRepeats(wire) && UpPeerDown(t, ValleyFree.Reverse(wire), u, peered)
    ensures var v := ValleyFree.PathVerdict(wire, hasASSet, C.Oracle(t.rel));
      && !v.isLeak
      && !v.hadUnknown
      && v.knownHops == |wire| - 1
  {
    hide View;
    var rl := C.Oracle(t.rel);
    NothingToDedupe(wire);
    NoValley(t, wire, u, peered);
    var hops := ValleyFree.Hops(wire, rl);
    forall k | 0 <= k < |hops|
      ensures hops[k].rel != RelUnknown
    {
      KnownHop(t, wire, u, peered, k);
    }
    ValleyFree.AllKnown(hops);
  }

  lemma MoveIsMoveOf(t: Topology, wire: seq<Asn>, h: nat)
    requires h + 1 < |wire|
    ensures ValleyFree.Move(wire, C.Oracle(t.rel), h) == MoveOf(t, ValleyFree.Reverse(wire), |wire| - 2 - h)
  {
  }

  lemma KnownHop(t: Topology, wire: seq<Asn>, u: nat, peered: bool, k: nat)
    requires UpPeerDown(t, ValleyFree.Reverse(wire), u, peered) && k + 1 < |wire|
    ensures C.Oracle(t.rel)(wire[k], wire[k + 1]) != RelUnknown
  {
    hide View;
    MoveIsMoveOf(t, wire, k);
    t.rel.LookupIsInversionSymmetric(wire[k], wire[k + 1]);
  }

  lemma NoValley(t: Topology, wire: seq<Asn>, u: nat, peered: bool)
    requires UpPeerDown(t, ValleyFree.Reverse(wire), u, peered)
    ensures !ValleyFree.HasValley(wire, C.Oracle(t.rel))
  {
    hide View;
    var rl := C.Oracle(t.rel);
    forall h, g | 0 <= h < g < |wire| - 1
      ensures !ValleyFree.Clash(wire, rl, h, g)
    {
      MoveIsMoveOf(t, wire, h);
      MoveIsMoveOf(t, wire, g);
    }
  }

  // ---- The stream ----

  datatype GenConfig = GenConfig(leakEvery: int, hijackEvery: int)

  datatype RecentAnn = RecentAnn(prefix: Prefix, peerAS: Asn)

  predicate LeakSlot(cfg: GenConfig, n: nat) {
    cfg.leakEvery > 0 && n % cfg.leakEvery == 0
  }

  predicate HijackSlot(cfg: GenConfig, n: nat) {
    cfg.hijackEvery > 0 && n % cfg.hijackEvery == 0
  }

  /** What the classifier built from the same topology makes of an event. */
  ghost function Verdict(t: Topology, ev: UpdateEvent): ClassifiedEvent
    requires WellFormed(t)
  {
    C.Classify(ev, t.rel, Roas(t))
  }

  /** An announcement of a planned prefix over an up-peer-down path. */
  ghost predicate CleanAnnounce(t: Topology, ev: UpdateEvent) {
    && ev.kind == Announce && !ev.hasASSet
    && |ev.asPath| > 0 && ev.originAS == Last(ev.asPath) && ev.originAS != 0 && ev.peerAS == ev.asPath[0]
    && NoRepeats(ev.asPath)
    && (exists u, peered :: UpPeerDown(t, ValleyFree.Reverse(ev.asPath), u, peered))
    && ev.prefix in t.prefixOwner
  }

  /** The announcement of an AS's own prefix. */
  ghost predicate Ordinary(t: Topology, ev: UpdateEvent) {
    && CleanAnnounce(t, ev)
    && t.prefixOwner[ev.prefix] == ev.originAS
  }

  /** A stub's announcement of a prefix with a ROA for somebody else. */
  ghost predicate Hijacking(t: Topology, ev: UpdateEvent) {
    && CleanAnnounce(t, ev)
    && ev.prefix in t.roaPrefixes
    && t.prefixOwner[ev.prefix] != ev.originAS
    && ev.originAS in t.stubs
  }

  /** AS2001 passing a route of its provider AS1001 on to its provider AS1002. */
  ghost predicate Leaking(t: Topology, ev: UpdateEvent) {
    && ev.kind == Announce && !ev.hasASSet
    && ev.asPath == [TIER1_BASE + 1, TRANSIT_BASE, TIER1_BASE]
    && ev.originAS == TIER1_BASE
    && ev.prefix in t.prefixOwner && t.prefixOwner[ev.prefix] == TIER1_BASE
  }

  /** What a hijack slot draws: the victim prefix, and stubs until one does not own it. */
  datatype HijackDraw = HijackDraw(victim: Prefix, picks: seq<Asn>)

  /** The victim has a ROA, at most eight stubs are drawn, and only the last may be a stranger. */
  ghost predicate FairDraw(t: Topology, d: HijackDraw) {
    && d.victim in t.roaPrefixes && d.victim in t.prefixOwner
    && 0 < |d.picks| <= HIJACK_TRIES
    && (forall i :: 0 <= i < |d.picks| ==> d.picks[i] in t.stubs)
    && (forall i :: 0 <= i < |d.picks| - 1 ==> d.picks[i] == t.prefixOwner[d.victim])
  }

  /** The last stub drawn does not own the victim. */
  ghost predicate FindsStranger(t: Topology, d: HijackDraw)
    requires FairDraw(t, d)
  {
    Last(d.picks) != t.prefixOwner[d.victim]
  }

  /** The event a hijack slot makes of its draw: the hijack if a stranger turned up, an ordinary
      announcement if eight draws all hit the owner, or if there is nothing to draw from. */
  ghost predicate MadeOfDraw(t: Topology, draw: Option<HijackDraw>, ev: UpdateEvent) {
    match draw
    case None => (|t.roaPrefixes| == 0 || |t.stubs| == 0) && Ordinary(t, ev)
    case Some(d) =>
      && |t.roaPrefixes| > 0 && |t.stubs| > 0 && FairDraw(t, d)
      && if FindsStranger(t, d) then Hijacking(t, ev) && ev.prefix == d.victim && ev.originAS == Last(d.picks)
         else |d.picks| == HIJACK_TRIES && Ordinary(t, ev)
  }

  /** The first draw already finds a stranger when the victim's owner is no stub. */
  lemma OutsiderIsHijacked(t: Topology, d: HijackDraw, ev: UpdateEvent)
    requires MadeOfDraw(t, Some(d), ev)
    ensures t.prefixOwner[d.victim] !in t.stubs ==> |d.picks| == 1 && Hijacking(t, ev)
    ensures Hijacking(t, ev) <==> FindsStranger(t, d)
  {
    hide CleanAnnounce;
    assert d.picks[0] in t.stubs;
    if |d.picks| > 1 {
      assert d.picks[0] == t.prefixOwner[d.victim];
    }
  }

  lemma OrdinaryIsValid(t: Topology, ev: UpdateEvent)
    requires WellFormed(t) && Ordinary(t, ev)
    ensures Verdict(t, ev).vfStatus == VFValid
    ensures Verdict(t, ev).rpkiStatus == if ev.prefix in t.roaPrefixes then RPKIValid else RPKINotFound
  {
    hide Agrees, View, UpPeerDown, Rpki.Assessed, ValleyFree.PathVerdict, Roas, PlanHolds;
    var u, peered :| UpPeerDown(t, ValleyFree.Reverse(ev.asPath), u, peered);
    ByConstruction(t, ev.asPath, u, peered, false);
    PlanVerdict(t, ev.prefix, ev.originAS);
  }

  lemma HijackingIsHijack(t: Topology, ev: UpdateEvent)
    requires WellFormed(t) && Hijacking(t, ev)
    ensures Verdict(t, ev).vfStatus == VFHijack && Verdict(t, ev).offenderAS == ev.originAS
    ensures Verdict(t, ev).rpkiStatus == RPKIInvalid
  {
    hide Agrees, View, UpPeerDown, Rpki.Assessed, ValleyFree.PathVerdict, Roas, PlanHolds;
    PlanVerdict(t, ev.prefix, ev.originAS);
  }

  lemma LeakingIsLeak(t: Topology, ev: UpdateEvent)
    requires WellFormed(t) && HasLeakSite(t) && Leaking(t, ev)
    ensures Verdict(t, ev).vfStatus == VFLeak && Verdict(t, ev).offenderAS == TRANSIT_BASE
  {
    hide Agrees, View, Rpki.Assessed, ValleyFree.PathVerdict, Roas, PlanHolds;
    LeakPath(t);
    PlanVerdict(t, ev.prefix, ev.originAS);
  }

  lemma LeakPath(t: Topology)
    requires HasLeakSite(t) && LeakSiteReady(t)
    ensures var v := ValleyFree.PathVerdict([TIER1_BASE + 1, TRANSIT_BASE, TIER1_BASE], false, C.Oracle(t.rel));
      v.isLeak && v.offenderAS == TRANSIT_BASE
  {
    hide ValleyFree.Dedupe, ValleyFree.ValleyHop;
    var wire, rl := [TIER1_BASE + 1, TRANSIT_BASE, TIER1_BASE], C.Oracle(t.rel);
    NothingToDedupe(wire);
    t.rel.LookupIsInversionSymmetric(TIER1_BASE, TRANSIT_BASE);
    assert ValleyFree.Move(wire, rl, 0) == View(t.rel.edges, TRANSIT_BASE, TIER1_BASE + 1);
    assert ValleyFree.Move(wire, rl, 1) == View(t.rel.edges, TRANSIT_BASE, TIER1_BASE).Invert();
    assert ValleyFree.Clash(wire, rl, 0, 1);
    assert ValleyFree.BreaksAt(wire, rl, 0) && !ValleyFree.BreaksAt(wire, rl, 1);
    ValleyFree.FirstBreakFound(wire, rl, 0);
  }

  class Generator {
    const topo: Topology
    const cfg: GenConfig
    var seqNo: nat
    var clock: int
    var recent: seq<RecentAnn>

    ghost predicate Valid()
      reads this
    {
      WellFormed(topo) && |recent| <= RECENT_CAP
    }

    constructor (topo: Topology, cfg: GenConfig)
      requires WellFormed(topo)
      ensures Valid() && this.topo == topo && this.cfg == cfg
      ensures seqNo == 0 && recent == []
    {
      this.topo, this.cfg := topo, cfg;
      seqNo, clock, recent := 0, 0, [];
    }

    /** An announce event for a wire-order path. */
    function Announcement(prefix: Prefix, wire: seq<Asn>): UpdateEvent {
      var origin := if |wire| > 0 then wire[|wire| - 1] else 0;
      var peer := if |wire| > 0 then wire[0] else 0;
      UpdateEvent(0, 0, 0, Announce, prefix, peer, wire, false, origin)
    }

    method PickPrefix(origin: Asn) returns (p: Prefix)
      requires WellFormed(topo) && |At(topo.ownerPrefixes, origin)| > 0
      ensures p in topo.prefixOwner && topo.prefixOwner[p] == origin && origin != 0
    {
      hide Agrees, InPlan;
      var ps := At(topo.ownerPrefixes, origin);
      var i := IntN(|ps|);
      p := ps[i];
      assert p in ps;
    }

    method MakeAnnounce() returns (ev: UpdateEvent)
      requires WellFormed(topo)
      ensures Ordinary(topo, ev)
    {
      hide Agrees, InPlan, PlanHolds, UpPeerDown, NoRepeats, At, View;
      var i := IntN(|topo.originables|);
      var origin := topo.originables[i];
      assert origin in topo.originables;
      var path := ValidPath(topo, origin);
      var p := PickPrefix(origin);
      ev := Announcement(p, path);
    }

    method MakeLeak() returns (ev: UpdateEvent)
      requires WellFormed(topo)
      ensures if HasLeakSite(topo) then Leaking(topo, ev) else Ordinary(topo, ev)
    {
      hide Agrees, InPlan, PlanHolds, At, View, Ordinary;
      if |topo.tier1| < 2 || |topo.transit| < 1 {
        ev := MakeAnnounce();
        return;
      }
      var origin := topo.tier1[0];
      var wire := [topo.tier1[1], topo.transit[0], origin];
      var p := PickPrefix(origin);
      ev := Announcement(p, wire);
    }

    /** A stub announces a prefix of someone else, when one but the owner comes up in eight draws. */
    method MakeHijack() returns (ev: UpdateEvent, ghost draw: Option<HijackDraw>)
      requires WellFormed(topo)
      ensures Hijacking(topo, ev) || Ordinary(topo, ev)
      ensures MadeOfDraw(topo, draw, ev)
    {
      hide Agrees, InPlan, UpPeerDown, NoRepeats, At, View;
      draw := None;
      if |topo.roaPrefixes| == 0 || |topo.stubs| == 0 {
        ev := MakeAnnounce();
        return;
      }
      var i := IntN(|topo.roaPrefixes|);
      var victim := topo.roaPrefixes[i];
      assert victim in topo.roaPrefixes;
      var owner := topo.prefixOwner[victim];
      var hijacker, tries := owner, 0;
      ghost var picks := [];
      while tries < HIJACK_TRIES && hijacker == owner
        invariant 0 <= tries == |picks| <= HIJACK_TRIES
        invariant hijacker == if tries == 0 then owner else Last(picks)
        invariant forall k :: 0 <= k < |picks| ==> picks[k] in topo.stubs
        invariant forall k :: 0 <= k < |picks| - 1 ==> picks[k] == owner
      {
        var s := IntN(|topo.stubs|);
        hijacker := topo.stubs[s];
        picks := picks + [hijacker];
        tries := tries + 1;
      }
      draw := Some(HijackDraw(victim, picks));
      if hijacker == owner {
        ev := MakeAnnounce();
        return;
      }
      var path := ValidPath(topo, hijacker);
      ev := Announcement(victim, path);
    }

    /** Takes a remembered announcement back, and forgets it. */
    method MakeWithdraw() returns (ev: UpdateEvent, ghost at: nat)
      requires |recent| > 0
      modifies this`recent
      ensures ev.kind == Withdraw
      ensures at < |old(recent)| && old(recent)[at] == RecentAnn(ev.prefix, ev.peerAS)
      ensures recent == old(recent)[..at] + old(recent)[at + 1..]
    {
      var i := IntN(|recent|);
      at := i;
      var r := recent[i];
      recent := recent[..i] + recent[i + 1..];
      ev := UpdateEvent(0, 0, 0, Withdraw, r.prefix, r.peerAS, [], false, 0);
    }

    method Remember(ev: UpdateEvent)
      modifies this`recent
      ensures recent == Remembered(old(recent), RecentAnn(ev.prefix, ev.peerAS))
    {
      recent := recent + [RecentAnn(ev.prefix, ev.peerAS)];
      if |recent| > RECENT_CAP {
        recent := recent[|recent| - RECENT_CAP..];
      }
    }

    /** The kind of event a slot of the schedule holds, given its draw if it is a hijack slot. */
    ghost predicate Scheduled(n: nat, ev: UpdateEvent, draw: Option<HijackDraw>) {
      if LeakSlot(cfg, n) then if HasLeakSite(topo) then Leaking(topo, ev) else Ordinary(topo, ev)
      else if HijackSlot(cfg, n) then MadeOfDraw(topo, draw, ev)
      else ev.kind == Withdraw || Ordinary(topo, ev)
    }

    /** The next event of the stream. */
    method Next() returns (ev: UpdateEvent, ghost draw: Option<HijackDraw>, ghost at: nat)
      requires Valid()
      modifies this
      ensures Valid()
      ensures seqNo == old(seqNo) + 1 && ev.seqNo == seqNo && ev.id == seqNo
      ensures ev.timestamp == clock && old(clock) + 40 <= clock < old(clock) + 200
      ensures Scheduled(seqNo, ev, draw)
      ensures ev.kind == Withdraw ==>
        && 8 <= |old(recent)| && at < |old(recent)|
        && old(recent)[at] == RecentAnn(ev.prefix, ev.peerAS)
        && recent == old(recent)[..at] + old(recent)[at + 1..]
      ensures ev.kind == Announce ==> recent == Remembered(old(recent), RecentAnn(ev.prefix, ev.peerAS))
    {
      hide WellFormed, UpPeerDown, NoRepeats, MadeOfDraw;
      draw, at := None, 0;
      seqNo := seqNo + 1;
      var ms := IntN(160);
      clock := clock + 40 + ms;
      if cfg.leakEvery > 0 && seqNo % cfg.leakEvery == 0 {
        ev := MakeLeak();
      } else if cfg.hijackEvery > 0 && seqNo % cfg.hijackEvery == 0 {
        ev, draw := MakeHijack();
        DrawIsAnnounced(topo, draw, ev);
      } else {
        var withdraws := Chance();
        if |recent| >= MIN_RECENT_FOR_WITHDRAW && withdraws {
          ev, at := MakeWithdraw();
        } else {
          ev := MakeAnnounce();
        }
      }
      ghost var bare := ev;
      ev := ev.(id := seqNo, seqNo := seqNo, timestamp := clock);
      DrawIsOfEvent(topo, draw, bare, ev);
      if ev.kind == Announce {
        Remember(ev);
      }
    }

    /** The stream: the first n events from a fresh generator. */
    method Events(n: nat) returns (out: seq<UpdateEvent>, ghost draws: seq<Option<HijackDraw>>)
      requires Valid() && seqNo == 0 && recent == []
      modifies this
      ensures Valid() && seqNo == n && |out| == |draws| == n
      ensures forall k :: 0 <= k < n ==> out[k].seqNo == k + 1 && Scheduled(k + 1, out[k], draws[k])
      ensures forall k :: 0 <= k < n && out[k].kind == Withdraw ==> TakesBack(out, k)
    {
      hide Valid, Scheduled;
      out, draws := [], [];
      for k := 0 to n
        invariant Valid() && seqNo == k && |out| == |draws| == k
        invariant forall j :: 0 <= j < k ==> out[j].seqNo == j + 1 && Scheduled(j + 1, out[j], draws[j])
        invariant forall r :: r in recent ==> WasAnnounced(out, k, r)
        invariant forall j :: 0 <= j < k && out[j].kind == Withdraw ==> TakesBack(out, j)
      {
        ghost var before := recent;
        ghost var draw, at;
        var ev;
        ev, draw, at := Next();
        ghost var was := out;
        out, draws := out + [ev], draws + [draw];
        RecentFrom(before, recent, ev, at);
        forall r | r in recent
          ensures WasAnnounced(out, k + 1, r)
        {
          if r in before {
            StillAnnounced(was, ev, k, r);
          } else {
            assert out[k] == ev;
          }
        }
        forall j | 0 <= j < k + 1 && out[j].kind == Withdraw
          ensures TakesBack(out, j)
        {
          if j < k {
            assert TakesBack(was, j);
            StillAnnounced(was, ev, j, RecentAnn(out[j].prefix, out[j].peerAS));
          } else {
            assert before[at] in before;
            StillAnnounced(was, ev, k, RecentAnn(ev.prefix, ev.peerAS));
          }
        }
      }
    }
  }

  /** The newest announcements, one more among them, at most as many as are kept. */
  function Remembered(recent: seq<RecentAnn>, r: RecentAnn): seq<RecentAnn> {
    var all := recent + [r];
    if |all| > RECENT_CAP then all[|all| - RECENT_CAP..] else all
  }

  /** With one more, the newest 256 announcements are remembered, in order. */
  lemma RememberedAreNewest(recent: seq<RecentAnn>, r: RecentAnn)
    ensures var kept := Remembered(recent, r);
      && |kept| == (if |recent| < 256 then |recent| + 1 else 256)
      && Last(kept) == r
      && forall j :: 0 <= j < |kept| - 1 ==> kept[j] == recent[|recent| + 1 - |kept| + j]
  {
  }

  /** What is remembered after an event was remembered before, or is the event. */
  lemma RecentFrom(before: seq<RecentAnn>, after: seq<RecentAnn>, ev: UpdateEvent, at: nat)
    requires ev.kind == Withdraw ==> at < |before| && after == before[..at] + before[at + 1..]
    requires ev.kind == Announce ==> after == Remembered(before, RecentAnn(ev.prefix, ev.peerAS))
    ensures forall r :: r in after ==> r in before || (ev.kind == Announce && r == RecentAnn(ev.prefix, ev.peerAS))
  {
  }

  lemma DrawIsAnnounced(t: Topology, draw: Option<HijackDraw>, ev: UpdateEvent)
    requires MadeOfDraw(t, draw, ev)
    ensures ev.kind == Announce
  {
  }

  /** Numbering and dating an event leave its draw as it is. */
  lemma DrawIsOfEvent(t: Topology, draw: Option<HijackDraw>, a: UpdateEvent, b: UpdateEvent)
    requires b == a.(id := b.id, seqNo := b.seqNo, timestamp := b.timestamp)
    ensures MadeOfDraw(t, draw, a) ==> MadeOfDraw(t, draw, b)
  {
    hide UpPeerDown, NoRepeats;
  }

  /** One of the first n events announced r. */
  ghost predicate WasAnnounced(evs: seq<UpdateEvent>, n: nat, r: RecentAnn) {
    exists j :: 0 <= j < n <= |evs| && evs[j].kind == Announce && RecentAnn(evs[j].prefix, evs[j].peerAS) == r
  }

  /** Event k withdraws what an earlier event announced. */
  ghost predicate TakesBack(evs: seq<UpdateEvent>, k: nat)
    requires k < |evs|
  {
    WasAnnounced(evs, k, RecentAnn(evs[k].prefix, evs[k].peerAS))
  }

  lemma StillAnnounced(evs: seq<UpdateEvent>, ev: UpdateEvent, n: nat, r: RecentAnn)
    requires WasAnnounced(evs, n, r)
    ensures WasAnnounced(evs + [ev], n, r)
    ensures WasAnnounced(evs + [ev], n + 1, r)
  {
    var j :| 0 <= j < n <= |evs| && evs[j].kind == Announce && RecentAnn(evs[j].prefix, evs[j].peerAS) == r;
    assert (evs + [ev])[j] == evs[j];
  }

  /** Main result: what the classifier says of event n is decided by the schedule. It is a leak by
      AS2001 exactly in a leak slot, a hijack exactly in a remaining hijack slot whose origin does not
      own the prefix, blamed on that stub, and valid otherwise. */
  lemma ScheduleDecides(g: Generator, n: nat, ev: UpdateEvent, draw: Option<HijackDraw>)
    requires WellFormed(g.topo) && HasLeakSite(g.topo) && g.Scheduled(n, ev, draw)
    ensures var c := Verdict(g.topo, ev);
      && (c.vfStatus == VFLeak <==> LeakSlot(g.cfg, n))
      && (c.vfStatus == VFLeak ==> c.offenderAS == TRANSIT_BASE)
      && (c.vfStatus == VFHijack <==>
            !LeakSlot(g.cfg, n) && HijackSlot(g.cfg, n) && ev.prefix in g.topo.prefixOwner && ev.originAS != g.topo.prefixOwner[ev.prefix])
      && (c.vfStatus == VFHijack ==> c.offenderAS == ev.originAS && c.offenderAS in g.topo.stubs && c.rpkiStatus == RPKIInvalid)
      && (c.vfStatus != VFLeak && c.vfStatus != VFHijack ==> c.vfStatus == VFValid && c.rpkiStatus != RPKIInvalid)
      && c.event == ev
      && (!LeakSlot(g.cfg, n) && HijackSlot(g.cfg, n) && draw.Some? ==>
            (c.vfStatus == VFHijack <==> FindsStranger(g.topo, draw.value)))
  {
    hide WellFormed, Verdict, CleanAnnounce;
    KeepsEvent(g.topo, ev);
    if LeakSlot(g.cfg, n) {
      LeakingIsLeak(g.topo, ev);
    } else if HijackSlot(g.cfg, n) {
      Announced(g.topo, ev);
      if draw.Some? {
        OutsiderIsHijacked(g.topo, draw.value, ev);
      }
      if Hijacking(g.topo, ev) {
        HijackingIsHijack(g.topo, ev);
      } else {
        OrdinaryIsValid(g.topo, ev);
      }
    } else if ev.kind == Withdraw {
      WithdrawIsNeutral(g.topo, ev);
    } else {
      OrdinaryIsValid(g.topo, ev);
    }
  }

  lemma KeepsEvent(t: Topology, ev: UpdateEvent)
    requires WellFormed(t)
    ensures Verdict(t, ev).event == ev
  {
    hide WellFormed;
  }

  lemma WithdrawIsNeutral(t: Topology, ev: UpdateEvent)
    requires WellFormed(t) && ev.kind == Withdraw
    ensures Verdict(t, ev).vfStatus == VFValid && Verdict(t, ev).rpkiStatus == RPKINotFound
  {
    hide WellFormed;
  }

  lemma Announced(t: Topology, ev: UpdateEvent)
    requires CleanAnnounce(t, ev)
    ensures ev.kind == Announce && ev.prefix in t.prefixOwner
  {
  }

  /** The number of leaks among the first n verdicts. */
  function Leaks(verdicts: seq<VFStatus>): nat {
    if |verdicts| == 0 then 0
    else Leaks(verdicts[..|verdicts| - 1]) + if Last(verdicts) == VFLeak then 1 else 0
  }

  /** The classifier's statuses of a run. */
  ghost function Statuses(t: Topology, evs: seq<UpdateEvent>): (vs: seq<VFStatus>)
    requires WellFormed(t)
    ensures |vs| == |evs|
    ensures forall k {:trigger vs[k]} :: 0 <= k < |evs| ==> vs[k] == Verdict(t, evs[k]).vfStatus
  {
    seq(|evs|, k requires 0 <= k < |evs| => Verdict(t, evs[k]).vfStatus)
  }

  /** Main result: after any number of events, that number divided by the period have been leaks. */
  lemma RunLeakCount(g: Generator, evs: seq<UpdateEvent>, draws: seq<Option<HijackDraw>>)
    requires WellFormed(g.topo) && HasLeakSite(g.topo) && |draws| == |evs|
    requires forall k :: 0 <= k < |evs| ==> g.Scheduled(k + 1, evs[k], draws[k])
    ensures Leaks(Statuses(g.topo, evs)) == if g.cfg.leakEvery > 0 then |evs| / g.cfg.leakEvery else 0
  {
    hide WellFormed, Verdict, Leaks;
    var vs := Statuses(g.topo, evs);
    forall k | 0 <= k < |vs|
      ensures vs[k] == VFLeak <==> LeakSlot(g.cfg, k + 1)
    {
      ScheduleDecides(g, k + 1, evs[k], draws[k]);
    }
    LeakCount(vs, g.cfg);
  }

  lemma {:induction false} LeakCount(verdicts: seq<VFStatus>, cfg: GenConfig)
    requires forall k :: 0 <= k < |verdicts| ==> (verdicts[k] == VFLeak <==> LeakSlot(cfg, k + 1))
    ensures Leaks(verdicts) == if cfg.leakEvery > 0 then |verdicts| / cfg.leakEvery else 0
  {
    if |verdicts| > 0 {
      LeakCount(verdicts[..|verdicts| - 1], cfg);
      if cfg.leakEvery > 0 {
        Quotients.Next(|verdicts| - 1, cfg.leakEvery);
      }
    } else if cfg.leakEvery > 0 {
      assert 0 / cfg.leakEvery == 0;
    }
  }
}
