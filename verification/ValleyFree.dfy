/** The Gao-Rexford valley-free walk (internal/valleyfree/classifier.go). The loops of the
    original are methods proved against the functions below; what the verdict means is then
    proved about those functions. */
module ValleyFree {
  import opened Bgp

  type RelLookup = (Asn, Asn) -> RelStatus

  datatype Verdict = Verdict(
    isLeak: bool,
    offenderAS: Asn,
    reason: Reason,
    hops: seq<PathHop>,
    hadUnknown: bool,
    knownHops: nat)

  datatype WalkPhase = PhaseUp | PhaseDown

  // ---- What a valley is ----

  /** The relationship crossed when a route propagates over wire hop h, that is from s[h + 1],
      nearer the origin, to s[h], nearer the collector. */
  function Move(s: seq<Asn>, rl: RelLookup, h: nat): RelStatus
    requires h + 1 < |s|
  {
    rl(s[h + 1], s[h])
  }

  /** A move that ends the uphill part of a path. */
  predicate LeavesUphill(r: RelStatus) {
    r == RelPeer || r == RelCustomer
  }

  /** A move allowed only while still uphill. */
  predicate NeedsUphill(r: RelStatus) {
    r == RelPeer || r == RelProvider
  }

  /** Hop g, which the route crosses before hop h, already ended the uphill part that hop h needs. */
  predicate Clash(s: seq<Asn>, rl: RelLookup, h: nat, g: nat)
    requires h < g < |s| - 1
  {
    NeedsUphill(Move(s, rl, h)) && LeavesUphill(Move(s, rl, g))
  }

  /** The path breaks the constraint at wire hop h. */
  predicate BreaksAt(s: seq<Asn>, rl: RelLookup, h: nat)
    requires h < |s| - 1
  {
    exists g :: h < g < |s| - 1 && Clash(s, rl, h, g)
  }

  predicate HasValley(s: seq<Asn>, rl: RelLookup) {
    exists h :: 0 <= h < |s| - 1 && BreaksAt(s, rl, h)
  }

  /** The break nearest the origin among the hops below k, or -1. */
  function ValleyHopBelow(s: seq<Asn>, rl: RelLookup, k: nat): (h: int)
    requires k == 0 || k < |s|
    ensures -1 <= h < k
    ensures h >= 0 ==> BreaksAt(s, rl, h)
    ensures forall g :: h < g < k ==> !BreaksAt(s, rl, g)
  {
    if k == 0 then -1
    else if BreaksAt(s, rl, k - 1) then k - 1
    else ValleyHopBelow(s, rl, k - 1)
  }

  /** The first break in propagation order, or -1. */
  function ValleyHop(s: seq<Asn>, rl: RelLookup): (h: int)
    ensures h == -1 || 0 <= h < |s| - 1
    ensures h >= 0 <==> HasValley(s, rl)
    ensures h >= 0 ==> BreaksAt(s, rl, h) && forall g :: h < g < |s| - 1 ==> !BreaksAt(s, rl, g)
  {
    if |s| < 2 then -1 else ValleyHopBelow(s, rl, |s| - 1)
  }

  lemma FirstBreakFound(s: seq<Asn>, rl: RelLookup, h: nat)
    requires h < |s| - 1 && BreaksAt(s, rl, h)
    requires forall g :: h < g < |s| - 1 ==> !BreaksAt(s, rl, g)
    ensures ValleyHop(s, rl) == h
  {
    assert HasValley(s, rl);
  }

  // ---- Prepending and hop annotations ----

  /** The path with every run of one ASN collapsed to a single entry. */
  function Dedupe(path: seq<Asn>): (out: seq<Asn>)
    ensures |path| > 0 ==> |out| > 0 && Last(out) == Last(path) && out[0] == path[0]
  {
    if |path| == 0 then []
    else
      var out := Dedupe(path[..|path| - 1]);
      if |out| > 0 && Last(out) == Last(path) then out else out + [Last(path)]
  }

  function Hops(s: seq<Asn>, rl: RelLookup): (hops: seq<PathHop>)
    ensures |hops| == if |s| == 0 then 0 else |s| - 1
    ensures forall k {:trigger hops[k]} :: 0 <= k < |hops| ==> hops[k] == HopAt(s, rl, k)
  {
    if |s| < 2 then [] else Hops(s[..|s| - 1], rl) + [HopAt(s, rl, |s| - 2)]
  }

  function HopAt(s: seq<Asn>, rl: RelLookup, k: nat): PathHop
    requires k + 1 < |s|
  {
    PathHop(s[k], s[k + 1], rl(s[k], s[k + 1]), false)
  }

  lemma HopsSnoc(s: seq<Asn>, rl: RelLookup, k: nat)
    requires k + 1 < |s|
    ensures Hops(s[..k + 2], rl) == Hops(s[..k + 1], rl) + [HopAt(s, rl, k)]
  {
    assert s[..k + 2][..k + 1] == s[..k + 1];
  }

  /** The number of hops with a known relationship. */
  function KnownHops(hops: seq<PathHop>): (n: nat)
    ensures n <= |hops|
  {
    if |hops| == 0 then 0
    else KnownHops(hops[..|hops| - 1]) + if Last(hops).rel == RelUnknown then 0 else 1
  }

  lemma {:induction false} KnownHopsSnoc(hops: seq<PathHop>, hop: PathHop)
    ensures KnownHops(hops + [hop]) == KnownHops(hops) + if hop.rel == RelUnknown then 0 else 1
  {
    assert (hops + [hop])[..|hops|] == hops;
  }

  /** All hops are known exactly when none is unknown. */
  lemma {:induction false} AllKnown(hops: seq<PathHop>)
    ensures KnownHops(hops) == |hops| <==> forall k :: 0 <= k < |hops| ==> hops[k].rel != RelUnknown
  {
    if |hops| > 0 {
      AllKnown(hops[..|hops| - 1]);
    }
  }

  /** No hop is known exactly when all are unknown. */
  lemma {:induction false} NoneKnown(hops: seq<PathHop>)
    ensures KnownHops(hops) == 0 <==> forall k :: 0 <= k < |hops| ==> hops[k].rel == RelUnknown
  {
    if |hops| > 0 {
      NoneKnown(hops[..|hops| - 1]);
    }
  }

  /** The verdict on a wire-order path, by the definition of a valley. */
  function PathVerdict(path: seq<Asn>, hasASSet: bool, rl: RelLookup): Verdict {
    var s := Dedupe(path);
    var hops := Hops(s, rl);
    var known := KnownHops(hops);
    var h := if hasASSet then -1 else ValleyHop(s, rl);
    if h < 0 then
      Verdict(false, 0, NoReason, hops, known < |hops|, known)
    else
      Verdict(true, s[h + 1], if Move(s, rl, h) == RelProvider then LeakedToProvider else LeakedToPeer,
              hops[h := hops[h].(isOffender := true)], known < |hops|, known)
  }

  lemma LeakIsValley(path: seq<Asn>, rl: RelLookup)
    ensures PathVerdict(path, false, rl).isLeak <==> HasValley(Dedupe(path), rl)
  {
  }

  // ---- The loops of the original ----

  method DedupeConsecutive(path: seq<Asn>) returns (out: seq<Asn>)
    ensures out == Dedupe(path)
  {
    out := [];
    for i := 0 to |path|
      invariant out == Dedupe(path[..i])
    {
      assert path[..i + 1][..i] == path[..i];
      if |out| > 0 && out[|out| - 1] == path[i] {
        continue;
      }
      out := out + [path[i]];
    }
    assert path[..|path|] == path;
  }

  method BuildHops(s: seq<Asn>, rl: RelLookup) returns (hops: seq<PathHop>, knownHops: nat, hadUnknown: bool)
    ensures hops == Hops(s, rl)
    ensures knownHops == KnownHops(hops)
    ensures hadUnknown <==> knownHops < |hops|
  {
    hops, knownHops, hadUnknown := [], 0, false;
    if |s| < 2 {
      return;
    }
    var k := 0;
    while k + 1 < |s|
      invariant 0 <= k < |s|
      invariant hops == Hops(s[..k + 1], rl)
      invariant knownHops == KnownHops(hops)
      invariant hadUnknown <==> knownHops < |hops|
    {
      var from, to := s[k], s[k + 1];
      var rel := rl(from, to);
      if rel == RelUnknown {
        hadUnknown := true;
      } else {
        knownHops := knownHops + 1;
      }
      HopsSnoc(s, rl, k);
      KnownHopsSnoc(hops, PathHop(from, to, rel, false));
      hops := hops + [PathHop(from, to, rel, false)];
      k := k + 1;
    }
    assert s[..|s|] == s;
  }

  /** The two-phase walk from the origin toward the collector. */
  method FindValley(s: seq<Asn>, rl: RelLookup) returns (offHop: int, offender: Asn, reason: Reason)
    ensures offHop == ValleyHop(s, rl)
    ensures offHop < 0 ==> offender == 0 && reason == NoReason
    ensures offHop >= 0 ==> offender == s[offHop + 1]
    ensures offHop >= 0 ==>
      reason == if Move(s, rl, offHop) == RelProvider then LeakedToProvider else LeakedToPeer
  {
    var phase := PhaseUp;
    var i := |s| - 1;
    while i > 0
      invariant |s| == 0 || 0 <= i < |s|
      invariant phase == PhaseDown <==> exists g :: 0 <= i <= g < |s| - 1 && LeavesUphill(Move(s, rl, g))
      invariant forall h :: 0 <= i <= h < |s| - 1 ==> !BreaksAt(s, rl, h)
    {
      var u, v := s[i], s[i - 1];
      var move := rl(u, v);
      assert move == Move(s, rl, i - 1);
      ghost var walked := PhaseIsDown(s, rl, i, phase);
      match move {
        case RelSibling =>
        case RelUnknown =>
        case RelProvider =>
          if phase == PhaseDown {
            assert Clash(s, rl, i - 1, walked);
            FirstBreakFound(s, rl, i - 1);
            return i - 1, u, LeakedToProvider;
          }
        case RelPeer =>
          if phase == PhaseDown {
            assert Clash(s, rl, i - 1, walked);
            FirstBreakFound(s, rl, i - 1);
            return i - 1, u, LeakedToPeer;
          }
          phase := PhaseDown;
        case RelCustomer =>
          phase := PhaseDown;
      }
      i := i - 1;
    }
    return -1, 0, NoReason;
  }

  /** A hop that sent the walk down, when it is down. */
  ghost function PhaseIsDown(s: seq<Asn>, rl: RelLookup, i: nat, phase: WalkPhase): (g: int)
    requires phase == PhaseDown ==> exists g :: i <= g < |s| - 1 && LeavesUphill(Move(s, rl, g))
    ensures phase == PhaseDown ==> i <= g < |s| - 1 && LeavesUphill(Move(s, rl, g))
  {
    if phase == PhaseDown then
      var g :| i <= g < |s| - 1 && LeavesUphill(Move(s, rl, g));
      g
    else -1
  }

  method ClassifyPath(path: seq<Asn>, hasASSet: bool, rl: RelLookup) returns (verdict: Verdict)
    ensures verdict == PathVerdict(path, hasASSet, rl)
  {
    var s := DedupeConsecutive(path);
    var hops, knownHops, hadUnknown := BuildHops(s, rl);
    verdict := Verdict(false, 0, NoReason, hops, hadUnknown, knownHops);
    if |s| <= 1 || hasASSet {
      return;
    }
    var offHop, offender, reason := FindValley(s, rl);
    if offHop >= 0 {
      verdict := verdict.(isLeak := true, offenderAS := offender, reason := reason,
                          hops := hops[offHop := hops[offHop].(isOffender := true)]);
    }
  }

  // ---- The accepted paths form a regular language ----

  /** The moves of a path in propagation order, origin first. */
  function Moves(s: seq<Asn>, rl: RelLookup): (m: seq<RelStatus>)
    ensures |m| == if |s| == 0 then 0 else |s| - 1
    ensures forall k :: 0 <= k < |m| ==> m[k] == Move(s, rl, |m| - 1 - k)
  {
    if |s| < 2 then [] else
    seq(|s| - 1, k requires 0 <= k < |s| - 1 => Move(s, rl, |s| - 2 - k))
  }

  /** The moves without siblings and unknowns, which take part in no decision. */
  function Erase(m: seq<RelStatus>): (e: seq<RelStatus>)
    ensures forall r :: r in e <==> r in m && r != RelSibling && r != RelUnknown
  {
    if |m| == 0 then []
    else if m[0] == RelSibling || m[0] == RelUnknown then Erase(m[1..])
    else [m[0]] + Erase(m[1..])
  }

  predicate AllAre(m: seq<RelStatus>, lo: nat, hi: nat, r: RelStatus)
    requires hi <= |m|
  {
    forall k :: lo <= k < hi ==> m[k] == r
  }

  /** m is split as provider* peer? customer* at i and j. */
  predicate SplitsAt(m: seq<RelStatus>, i: nat, j: nat)
    requires i <= j <= |m|
  {
    && AllAre(m, 0, i, RelProvider)
    && (i == j || (j == i + 1 && m[i] == RelPeer))
    && AllAre(m, j, |m|, RelCustomer)
  }

  /** m is in the language provider* peer? customer*. */
  ghost predicate InLanguage(m: seq<RelStatus>) {
    exists i: nat, j: nat :: i <= j <= |m| && SplitsAt(m, i, j)
  }

  /** A move that needs the uphill part comes after one that ended it. */
  ghost predicate OutOfOrder(m: seq<RelStatus>) {
    exists i, j :: 0 <= i < j < |m| && LeavesUphill(m[i]) && NeedsUphill(m[j])
  }

  lemma ValleyIsOutOfOrder(s: seq<Asn>, rl: RelLookup)
    ensures HasValley(s, rl) <==> OutOfOrder(Moves(s, rl))
  {
    var m := Moves(s, rl);
    if HasValley(s, rl) {
      var h :| 0 <= h < |s| - 1 && BreaksAt(s, rl, h);
      var g :| h < g < |s| - 1 && Clash(s, rl, h, g);
      assert LeavesUphill(m[|m| - 1 - g]) && NeedsUphill(m[|m| - 1 - h]);
    }
    if OutOfOrder(m) {
      var i, j :| 0 <= i < j < |m| && LeavesUphill(m[i]) && NeedsUphill(m[j]);
      assert Clash(s, rl, |m| - 1 - j, |m| - 1 - i);
      assert BreaksAt(s, rl, |m| - 1 - j);
    }
  }

  lemma {:induction false} EraseKeepsOrder(m: seq<RelStatus>)
    ensures OutOfOrder(Erase(m)) <==> OutOfOrder(m)
  {
    if |m| > 0 {
      var rest := m[1..];
      EraseKeepsOrder(rest);
      HeadOrTail(m);
      if m[0] != RelSibling && m[0] != RelUnknown {
        assert Erase(m)[1..] == Erase(rest);
        HeadOrTail(Erase(m));
      }
    }
  }

  lemma HeadOrTail(m: seq<RelStatus>)
    requires |m| > 0
    ensures OutOfOrder(m) <==> OutOfOrder(m[1..]) || (LeavesUphill(m[0]) && exists r :: r in m[1..] && NeedsUphill(r))
  {
    var rest := m[1..];
    if OutOfOrder(m) {
      var i, j :| 0 <= i < j < |m| && LeavesUphill(m[i]) && NeedsUphill(m[j]);
      assert m[j] == rest[j - 1] && m[j] in rest;
      if i > 0 {
        assert m[i] == rest[i - 1];
      }
    }
    if OutOfOrder(rest) {
      var i, j :| 0 <= i < j < |rest| && LeavesUphill(rest[i]) && NeedsUphill(rest[j]);
      assert m[i + 1] == rest[i] && m[j + 1] == rest[j];
    }
    if LeavesUphill(m[0]) && exists r :: r in rest && NeedsUphill(r) {
      var r :| r in rest && NeedsUphill(r);
      var j :| 0 <= j < |rest| && rest[j] == r;
      assert NeedsUphill(m[j + 1]);
    }
  }

  /** Among uphill, peer and downhill moves, being in order is being in the language. */
  lemma {:induction false} InOrderIsLanguage(m: seq<RelStatus>)
    requires forall r :: r in m ==> LeavesUphill(r) || NeedsUphill(r)
    ensures !OutOfOrder(m) <==> InLanguage(m)
  {
    if InLanguage(m) {
      var a: nat, b: nat :| a <= b <= |m| && SplitsAt(m, a, b);
      assert !OutOfOrder(m);
    }
    if !OutOfOrder(m) {
      if |m| == 0 {
        assert SplitsAt(m, 0, 0);
      } else if m[0] == RelProvider {
        var rest := m[1..];
        HeadOrTail(m);
        InOrderIsLanguage(rest);
        var a: nat, b: nat :| a <= b <= |rest| && SplitsAt(rest, a, b);
        assert forall k :: 1 <= k < |m| ==> m[k] == rest[k - 1];
        assert SplitsAt(m, a + 1, b + 1);
      } else {
        var j := if m[0] == RelPeer then 1 else 0;
        forall k | j <= k < |m|
          ensures m[k] == RelCustomer
        {
          assert m[k] in m;
        }
        assert SplitsAt(m, 0, j);
      }
    }
  }

  /** Main result: without AS_SET the walk accepts exactly the paths whose moves, read from
      the origin and with siblings and unknowns erased, are provider* peer? customer*. */
  lemma WalkAcceptsExactlyTheLanguage(path: seq<Asn>, rl: RelLookup)
    ensures !PathVerdict(path, false, rl).isLeak <==> InLanguage(Erase(Moves(Dedupe(path), rl)))
  {
    var m := Moves(Dedupe(path), rl);
    ValleyIsOutOfOrder(Dedupe(path), rl);
    EraseKeepsOrder(m);
    InOrderIsLanguage(Erase(m));
  }

  // ---- The offender is the first violation ----

  /** A break at hop h of a longer path is a break of the part of the path from k to the origin. */
  lemma SuffixBreaks(s: seq<Asn>, rl: RelLookup, k: nat, h: nat)
    requires k <= h < |s| - 1
    ensures BreaksAt(s[k..], rl, h - k) <==> BreaksAt(s, rl, h)
  {
    var t := s[k..];
    if BreaksAt(s, rl, h) {
      var g :| h < g < |s| - 1 && Clash(s, rl, h, g);
      assert Clash(t, rl, h - k, g - k);
    }
    if BreaksAt(t, rl, h - k) {
      var g :| h - k < g < |t| - 1 && Clash(t, rl, h - k, g);
      assert Clash(s, rl, h, g + k);
    }
  }

  /** The first break ends the shortest part of the path, read from the origin, that has a valley. */
  lemma FirstBreakIsShortest(s: seq<Asn>, rl: RelLookup)
    requires HasValley(s, rl)
    ensures var h := ValleyHop(s, rl);
      HasValley(s[h..], rl) && !HasValley(s[h + 1..], rl)
  {
    var h := ValleyHop(s, rl);
    SuffixBreaks(s, rl, h, h);
    assert BreaksAt(s[h..], rl, 0);
    var t := s[h + 1..];
    if HasValley(t, rl) {
      var g :| 0 <= g < |t| - 1 && BreaksAt(t, rl, g);
      SuffixBreaks(s, rl, h + 1, h + 1 + g);
    }
  }

  /** Main result: a leak flags exactly one hop, the one that ends the shortest leaking part of
      the path read from the origin, and blames the AS at that hop's origin side, for what the next AS is
      to it. */
  lemma LeakIsPinpointed(path: seq<Asn>, rl: RelLookup) returns (h: nat)
    requires PathVerdict(path, false, rl).isLeak
    ensures h < |PathVerdict(path, false, rl).hops| == |Dedupe(path)| - 1
    ensures forall k :: 0 <= k < |Dedupe(path)| - 1 ==>
      (PathVerdict(path, false, rl).hops[k].isOffender <==> k == h)
    ensures PathVerdict(path, false, rl).offenderAS == PathVerdict(path, false, rl).hops[h].to
    ensures var s, reason := Dedupe(path), PathVerdict(path, false, rl).reason;
      && (reason == LeakedToProvider <==> rl(s[h + 1], s[h]) == RelProvider)
      && (reason == LeakedToPeer <==> rl(s[h + 1], s[h]) == RelPeer)
    ensures HasValley(Dedupe(path)[h..], rl) && !HasValley(Dedupe(path)[h + 1..], rl)
  {
    var s := Dedupe(path);
    h := ValleyHop(s, rl);
    FirstBreakIsShortest(s, rl);
    assert PathVerdict(path, false, rl).hops == Hops(s, rl)[h := Hops(s, rl)[h].(isOffender := true)];
  }

  /** A path that is not a leak flags no hop and blames nobody; one with an AS_SET never is a leak. */
  lemma NoLeakNoOffender(path: seq<Asn>, hasASSet: bool, rl: RelLookup)
    ensures hasASSet ==> !PathVerdict(path, hasASSet, rl).isLeak
    ensures !PathVerdict(path, hasASSet, rl).isLeak ==>
      && PathVerdict(path, hasASSet, rl).offenderAS == 0
      && PathVerdict(path, hasASSet, rl).reason == NoReason
      && forall hop :: hop in PathVerdict(path, hasASSet, rl).hops ==> !hop.isOffender
  {
  }

  // ---- Invariance ----

  lemma DedupeSnoc(path: seq<Asn>, x: Asn)
    ensures Dedupe(path + [x]) ==
      if |path| > 0 && Last(Dedupe(path)) == x then Dedupe(path) else Dedupe(path) + [x]
  {
    assert (path + [x])[..|path|] == path;
  }

  predicate IsSuffix(q: seq<Asn>, p: seq<Asn>) {
    |q| <= |p| && p[|p| - |q|..] == q
  }

  /** The deduped pieces joined, with an AS on both sides of the seam kept once. */
  function Joined(p: seq<Asn>, q: seq<Asn>): seq<Asn> {
    if |p| > 0 && |q| > 0 && Last(p) == q[0] then p + q[1..] else p + q
  }

  lemma SeamSnoc(p: seq<Asn>, q: seq<Asn>, x: Asn)
    ensures Joined(p, []) == p
    ensures |q| > 0 ==> |Joined(p, q)| > 0 && Last(Joined(p, q)) == Last(q)
    ensures Joined(p, q + [x]) ==
      if |q| > 0 then Joined(p, q) + [x] else if |p| > 0 && Last(p) == x then p else p + [x]
  {
    if |q| > 0 {
      assert (q + [x])[1..] == q[1..] + [x];
    }
  }

  lemma JoinedPieces(p: seq<Asn>, q: seq<Asn>)
    ensures p <= Joined(p, q) && IsSuffix(q, Joined(p, q))
  {
    if |p| > 0 && |q| > 0 && Last(p) == q[0] {
      assert p + q[1..] == p[..|p| - 1] + q;
    }
  }

  /** Deduping a concatenation joins the deduped pieces at the seam; so each piece is still there. */
  lemma {:induction false} DedupeConcat(a: seq<Asn>, b: seq<Asn>)
    ensures Dedupe(a + b) == Joined(Dedupe(a), Dedupe(b))
    ensures Dedupe(a) <= Dedupe(a + b)
    ensures IsSuffix(Dedupe(b), Dedupe(a + b))
  {
    hide Dedupe, Joined, IsSuffix;
    SeamSnoc(Dedupe(a), [], 0);
    NothingDeduped(b);
    if |b| == 0 {
      assert a + b == a && Dedupe(b) == [];
    } else {
      var b', x := b[..|b| - 1], Last(b);
      DedupeConcat(a, b');
      assert a + b == (a + b') + [x];
      assert b == b' + [x];
      DedupeSnoc(a + b', x);
      DedupeSnoc(b', x);
      SeamSnoc(Dedupe(a), Dedupe(b'), x);
      NothingDeduped(b');
      NothingDeduped(a + b');
    }
    JoinedPieces(Dedupe(a), Dedupe(b));
  }

  lemma NothingDeduped(path: seq<Asn>)
    ensures |Dedupe(path)| == 0 <==> |path| == 0
  {
  }

  /** Repeating an AS in place changes nothing in the verdict. */
  lemma {:induction false} PrependingIsInvisible(a: seq<Asn>, x: Asn, b: seq<Asn>, hasASSet: bool, rl: RelLookup)
    ensures PathVerdict(a + [x, x] + b, hasASSet, rl) == PathVerdict(a + [x] + b, hasASSet, rl)
  {
    RepeatDedupes(a, x, b);
  }

  lemma {:induction false} RepeatDedupes(a: seq<Asn>, x: Asn, b: seq<Asn>)
    ensures Dedupe(a + [x, x] + b) == Dedupe(a + [x] + b)
  {
    if |b| == 0 {
      assert (a + [x, x] + b)[..|a| + 1] == a + [x] + b;
    } else {
      var b' := b[..|b| - 1];
      assert (a + [x, x] + b)[..|a| + 1 + |b|] == a + [x, x] + b';
      assert (a + [x] + b)[..|a| + |b|] == a + [x] + b';
      RepeatDedupes(a, x, b');
    }
  }

  /** A valley survives in any longer path. */
  lemma ValleySurvives(s: seq<Asn>, rl: RelLookup, i: nat, j: nat)
    requires i <= j <= |s|
    requires HasValley(s[i..j], rl)
    ensures HasValley(s, rl)
  {
    var t := s[i..j];
    var h :| 0 <= h < |t| - 1 && BreaksAt(t, rl, h);
    var g :| h < g < |t| - 1 && Clash(t, rl, h, g);
    assert Clash(s, rl, h + i, g + i);
    assert BreaksAt(s, rl, h + i);
  }

  lemma MiddlePart(whole: seq<Asn>, left: seq<Asn>, mid: seq<Asn>)
    requires left <= whole && IsSuffix(mid, left)
    ensures |mid| <= |left| <= |whole| && whole[|left| - |mid|..|left|] == mid
  {
    assert whole[..|left|] == left;
    assert whole[|left| - |mid|..|left|] == left[|left| - |mid|..];
  }

  /** Main result: every contiguous sub-path of a path that does not leak does not leak. */
  lemma SubPathOfNonLeak(a: seq<Asn>, b: seq<Asn>, c: seq<Asn>, rl: RelLookup)
    requires !PathVerdict(a + b + c, false, rl).isLeak
    ensures !PathVerdict(b, false, rl).isLeak
  {
    hide *;
    LeakIsValley(a + b + c, rl);
    LeakIsValley(b, rl);
    DedupeConcat(a + b, c);
    DedupeConcat(a, b);
    var whole, left, mid := Dedupe(a + b + c), Dedupe(a + b), Dedupe(b);
    MiddlePart(whole, left, mid);
    if HasValley(mid, rl) {
      ValleySurvives(whole, rl, |left| - |mid|, |left|);
    }
  }

  /** The first break of a suffix is the first break of the whole. */
  lemma SuffixKeepsFirstBreak(whole: seq<Asn>, s: seq<Asn>, rl: RelLookup)
    requires IsSuffix(s, whole) && HasValley(s, rl)
    ensures ValleyHop(whole, rl) == |whole| - |s| + ValleyHop(s, rl)
  {
    var k, h := |whole| - |s|, ValleyHop(s, rl);
    SuffixBreaks(whole, rl, k, k + h);
    forall g | k + h < g < |whole| - 1
      ensures !BreaksAt(whole, rl, g)
    {
      SuffixBreaks(whole, rl, k, g);
    }
    FirstBreakFound(whole, rl, k + h);
  }

  /** A leak reads its offender and its reason off the first break. */
  lemma LeakDetails(path: seq<Asn>, rl: RelLookup)
    requires HasValley(Dedupe(path), rl)
    ensures var s, h := Dedupe(path), ValleyHop(Dedupe(path), rl);
      && PathVerdict(path, false, rl).isLeak
      && PathVerdict(path, false, rl).offenderAS == s[h + 1]
      && PathVerdict(path, false, rl).reason == (if rl(s[h + 1], s[h]) == RelProvider then LeakedToProvider else LeakedToPeer)
  {
  }

  /** Main result: a leak keeps its offender and its reason when the path grows toward the collector. */
  lemma ExtensionKeepsOffender(a: seq<Asn>, b: seq<Asn>, rl: RelLookup)
    requires PathVerdict(b, false, rl).isLeak
    ensures PathVerdict(a + b, false, rl).isLeak
    ensures PathVerdict(a + b, false, rl).offenderAS == PathVerdict(b, false, rl).offenderAS
    ensures PathVerdict(a + b, false, rl).reason == PathVerdict(b, false, rl).reason
  {
    hide Dedupe, PathVerdict, HasValley;
    DedupeConcat(a, b);
    LeakIsValley(b, rl);
    SuffixKeepsFirstBreak(Dedupe(a + b), Dedupe(b), rl);
    LeakDetails(b, rl);
    LeakDetails(a + b, rl);
  }

  function Reverse<T>(s: seq<T>): (r: seq<T>)
    ensures |r| == |s|
    ensures forall k :: 0 <= k < |s| ==> r[k] == s[|s| - 1 - k]
  {
    seq(|s|, k requires 0 <= k < |s| => s[|s| - 1 - k])
  }

  /** The oracle gives the two ends of every link opposite views of it. */
  ghost predicate InversionSymmetric(rl: RelLookup) {
    forall a: Asn, b: Asn :: rl(a, b) == rl(b, a).Invert()
  }

  lemma {:induction false} DedupeReverse(path: seq<Asn>)
    ensures Dedupe(Reverse(path)) == Reverse(Dedupe(path))
  {
    if |path| > 0 {
      var front, last := path[..|path| - 1], Last(path);
      DedupeReverse(front);
      ReverseSnoc(front, last);
      assert path == front + [last];
      DedupeSnoc(front, last);
      PushFront(last, Reverse(front));
      ReverseSnoc(Dedupe(front), last);
    }
  }

  lemma ReverseSnoc(s: seq<Asn>, x: Asn)
    ensures Reverse(s + [x]) == [x] + Reverse(s)
  {
  }

  lemma {:induction false} PushFront(x: Asn, b: seq<Asn>)
    ensures Dedupe([x] + b) == if |b| > 0 && b[0] == x then Dedupe(b) else [x] + Dedupe(b)
  {
    if |b| == 0 {
      assert [x] + b == [x];
      assert [x][..0] == [];
      assert Dedupe([]) == [];
    } else {
      var b' := b[..|b| - 1];
      assert ([x] + b)[..|b|] == [x] + b';
      PushFront(x, b');
    }
  }

  /** Main result: over an inversion-symmetric oracle a path leaks exactly when its reverse does. */
  lemma ReversalPreservesLeak(path: seq<Asn>, rl: RelLookup)
    requires InversionSymmetric(rl)
    ensures PathVerdict(Reverse(path), false, rl).isLeak == PathVerdict(path, false, rl).isLeak
  {
    var s := Dedupe(path);
    LeakIsValley(path, rl);
    LeakIsValley(Reverse(path), rl);
    DedupeReverse(path);
    if HasValley(s, rl) {
      ReversedValley(s, rl);
    } else if HasValley(Reverse(s), rl) {
      ReversedValley(Reverse(s), rl);
      ReverseTwice(s);
    }
  }

  lemma ReverseTwice<T>(s: seq<T>)
    ensures Reverse(Reverse(s)) == s
  {
  }

  lemma ReversedValley(s: seq<Asn>, rl: RelLookup)
    requires InversionSymmetric(rl)
    requires HasValley(s, rl)
    ensures HasValley(Reverse(s), rl)
  {
    var t, n := Reverse(s), |s| - 2;
    var h :| 0 <= h < |s| - 1 && BreaksAt(s, rl, h);
    var g :| h < g < |s| - 1 && Clash(s, rl, h, g);
    assert Move(t, rl, n - h) == Move(s, rl, h).Invert();
    assert Move(t, rl, n - g) == Move(s, rl, g).Invert();
    assert Clash(t, rl, n - g, n - h);
    assert BreaksAt(t, rl, n - g);
  }
}
