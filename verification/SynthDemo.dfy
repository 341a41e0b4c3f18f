/** The demo end to end: a built topology, its stream, and the real walk and trie classifying it. */
module SynthDemo {
  import opened Bgp
  import opened SynthTopology
  import opened SynthGenerator
  import opened SynthBuilder
  import C = Classify
  import opened GraphCounters
  import Rpki

  type Draw = Option<HijackDraw>

  /** Event n has the verdict the schedule gives its slot. */
  ghost predicate AsScheduled(t: Topology, cfg: GenConfig, n: nat, ev: UpdateEvent, c: ClassifiedEvent) {
    && c.event == ev
    && (c.vfStatus == VFLeak <==> cfg.leakEvery > 0 && n % cfg.leakEvery == 0)
    && (c.vfStatus == VFLeak ==> c.offenderAS == 2001)
    && (c.vfStatus == VFHijack <==>
          c.vfStatus != VFLeak && cfg.hijackEvery > 0 && n % cfg.hijackEvery == 0
          && ev.prefix in t.prefixOwner && ev.originAS != t.prefixOwner[ev.prefix])
    && (c.vfStatus == VFHijack ==>
          c.offenderAS == ev.originAS && c.offenderAS >= 3001 && c.rpkiStatus == RPKIInvalid)
    && (c.vfStatus != VFLeak && c.vfStatus != VFHijack ==> c.vfStatus == VFValid)
  }

  /** A hijack slot draws a victim with a ROA, and is a hijack exactly when the draw finds a stub that
      does not own the victim; the first one drawn is such a stub unless a stub owns the victim. */
  ghost predicate AsDrawn(t: Topology, cfg: GenConfig, n: nat, draw: Draw, c: ClassifiedEvent) {
    !LeakSlot(cfg, n) && HijackSlot(cfg, n) ==>
      && draw.Some? && FairDraw(t, draw.value)
      && (c.vfStatus == VFHijack <==> FindsStranger(t, draw.value))
      && (t.prefixOwner[draw.value.victim] !in t.stubs ==> c.vfStatus == VFHijack)
  }

  /** Main result: for every random choice and every length, each event of the stream gets from the
      walk and the trie the verdict its slot is scheduled for, and hijack slots hijack whenever their
      draw allows it. */
  method RunDemo(cfg: GenConfig, n: nat)
    returns (t: Topology, evs: seq<UpdateEvent>, out: seq<ClassifiedEvent>, ghost draws: seq<Draw>)
    ensures LinkedAsPlanned(t) && AllocatedAsPlanned(t)
    ensures |evs| == |out| == |draws| == n
    ensures forall k :: 0 <= k < n ==> AsScheduled(t, cfg, k + 1, evs[k], out[k])
    ensures forall k :: 0 <= k < n ==> AsDrawn(t, cfg, k + 1, draws[k], out[k])
    ensures forall k :: 0 <= k < n && evs[k].kind == Withdraw ==> TakesBack(evs, k)
    ensures CountersOf(out).leaks == if cfg.leakEvery > 0 then n / cfg.leakEvery else 0
  {
    hide *;
    var vrp: Rpki.VRPStore;
    t, vrp := BuildDefault();
    SomethingToDraw(t);
    var g := new Generator(t, cfg);
    evs, draws := g.Events(n);
    out := [];
    PlanOf(t);
    for k := 0 to n
      invariant |out| == k && vrp.Valid() && vrp.vrps == Roas(t)
      invariant forall j :: 0 <= j < k ==> AsScheduled(t, cfg, j + 1, evs[j], out[j])
      invariant forall j :: 0 <= j < k ==> AsDrawn(t, cfg, j + 1, draws[j], out[j])
    {
      NeverPanics(g, k + 1, evs[k], draws[k]);
      var c := C.ClassifyEvent(evs[k], t.rel, vrp);
      SlotVerdict(g, k + 1, evs[k], draws[k], c.value);
      DrawVerdict(g, k + 1, evs[k], draws[k], c.value);
      out := out + [c.value];
    }
    LeaksAreCounted(t, cfg, evs, out);
  }

  function StatusesOf(cs: seq<ClassifiedEvent>): (vs: seq<VFStatus>)
    ensures |vs| == |cs|
    ensures forall k {:trigger vs[k]} :: 0 <= k < |cs| ==> vs[k] == cs[k].vfStatus
  {
    seq(|cs|, k requires 0 <= k < |cs| => cs[k].vfStatus)
  }

  /** The aggregator's leak counter counts the leaks among the statuses. */
  lemma {:induction false} CountedLeaks(out: seq<ClassifiedEvent>)
    ensures CountersOf(out).leaks == Leaks(StatusesOf(out))
  {
    if |out| > 0 {
      CountedLeaks(out[..|out| - 1]);
      assert StatusesOf(out)[..|out| - 1] == StatusesOf(out[..|out| - 1]);
    }
  }

  /** A run of scheduled verdicts leaves the leak counter at the length divided by the period. */
  lemma LeaksAreCounted(t: Topology, cfg: GenConfig, evs: seq<UpdateEvent>, out: seq<ClassifiedEvent>)
    requires |evs| == |out|
    requires forall k :: 0 <= k < |out| ==> AsScheduled(t, cfg, k + 1, evs[k], out[k])
    ensures CountersOf(out).leaks == if cfg.leakEvery > 0 then |out| / cfg.leakEvery else 0
  {
    hide Leaks, CountersOf;
    CountedLeaks(out);
    var vs := StatusesOf(out);
    forall k | 0 <= k < |vs|
      ensures vs[k] == VFLeak <==> LeakSlot(cfg, k + 1)
    {
      assert AsScheduled(t, cfg, k + 1, evs[k], out[k]);
    }
    LeakCount(vs, cfg);
  }

  lemma PlanOf(t: Topology)
    requires WellFormed(t)
    ensures PlanHolds(t.ownerPrefixes, t.prefixOwner, t.roaPrefixes)
  {
    hide PlanHolds;
  }

  lemma SomethingToDraw(t: Topology)
    requires AllocatedAsPlanned(t) && t.stubs == Tier(STUB_BASE, STUB_COUNT)
    ensures |t.roaPrefixes| >= 120 && |t.stubs| > 0
  {
    hide GivenOut;
  }

  /** The stream announces nothing the trie could misread. */
  lemma NeverPanics(g: Generator, n: nat, ev: UpdateEvent, draw: Draw)
    requires WellFormed(g.topo) && g.Scheduled(n, ev, draw)
    ensures !C.Panics(ev, Roas(g.topo))
  {
    hide Agrees, InPlan, UpPeerDown;
    if ev.kind == Announce {
      PlanIsNative(ev.prefix);
    }
  }

  lemma SlotVerdict(g: Generator, n: nat, ev: UpdateEvent, draw: Draw, c: ClassifiedEvent)
    requires WellFormed(g.topo) && HasLeakSite(g.topo) && g.Scheduled(n, ev, draw)
    requires c == C.Classify(ev, g.topo.rel, Roas(g.topo))
    ensures AsScheduled(g.topo, g.cfg, n, ev, c)
  {
    hide WellFormed, C.Classify, g.Scheduled;
    ScheduleDecides(g, n, ev, draw);
    VerdictIs(g.topo, ev);
    StubsAreHigh(g.topo);
  }

  lemma DrawVerdict(g: Generator, n: nat, ev: UpdateEvent, draw: Draw, c: ClassifiedEvent)
    requires WellFormed(g.topo) && HasLeakSite(g.topo) && g.Scheduled(n, ev, draw)
    requires |g.topo.roaPrefixes| > 0 && |g.topo.stubs| > 0
    requires c == C.Classify(ev, g.topo.rel, Roas(g.topo))
    ensures AsDrawn(g.topo, g.cfg, n, draw, c)
  {
    hide WellFormed, C.Classify, CleanAnnounce;
    ScheduleDecides(g, n, ev, draw);
    VerdictIs(g.topo, ev);
    if !LeakSlot(g.cfg, n) && HijackSlot(g.cfg, n) {
      OutsiderIsHijacked(g.topo, draw.value, ev);
    }
  }

  lemma VerdictIs(t: Topology, ev: UpdateEvent)
    requires WellFormed(t)
    ensures Verdict(t, ev) == C.Classify(ev, t.rel, Roas(t))
  {
    hide WellFormed, C.Classify;
  }

  lemma StubsAreHigh(t: Topology)
    requires WellFormed(t)
    ensures forall s :: s in t.stubs ==> 3001 <= s
  {
  }
}
