/** RFC 6811 origin validation (internal/rpki): the definition over a flat set of VRPs, and
    the mutable binary trie the code uses, proved against that definition. */
module Rpki {
  import opened Bgp
  import opened Prefixes
  import opened Tries

  const MAX_BITS_V4 := 32
  const MAX_BITS_V6 := 128

  datatype Result = Result(status: RPKIStatus, matchedVRP: Option<VRP>, coveringVRPs: nat)

  /** What Validate comes to: an answer, or an index outside the address. */
  datatype Validation = Answered(result: Result) | IndexPanic

  datatype AddError = InvalidPrefix | MaxLengthOutOfRange

  // ---- The definition: RFC 6811 section 2 over a set ----

  function FamilyMax(p: Prefix): nat {
    if p.v6 && !Is4In6(p) then MAX_BITS_V6 else MAX_BITS_V4
  }

  /** The VRP a store keeps for v. */
  function Canonical(v: VRP): VRP {
    v.(prefix := Masked(v.prefix))
  }

  /** What Add says about v. */
  function Refusal(v: VRP): Option<AddError> {
    if !v.prefix.IsValid() then Some(InvalidPrefix)
    else if v.maxLength < v.prefix.bits || v.maxLength > FamilyMax(Masked(v.prefix)) then Some(MaxLengthOutOfRange)
    else None
  }

  predicate Accepted(v: VRP) {
    Refusal(v).None?
  }

  /** A VRP as a store holds it. */
  predicate Stored(v: VRP) {
    Accepted(v) && v == Canonical(v)
  }

  /** The canonical forms of the acceptable VRPs of a set. */
  function InRange(vrps: set<VRP>): set<VRP> {
    set v | v in vrps && Accepted(v) :: Canonical(v)
  }

  /** The checks of Add, one by one. */
  lemma RefusedWhen(v: VRP)
    ensures !v.prefix.IsValid() ==> Refusal(v) == Some(InvalidPrefix) && InRange({v}) == {}
    ensures v.prefix.IsValid() ==>
      var prefix := Masked(v.prefix);
      var max := if prefix.v6 && !Is4In6(prefix) then MAX_BITS_V6 else MAX_BITS_V4;
      var w := VRP(prefix, v.maxLength, v.originAS);
      if v.maxLength < prefix.bits || v.maxLength > max then
        Refusal(v) == Some(MaxLengthOutOfRange) && InRange({v}) == {}
      else
        Refusal(v) == None && InRange({v}) == {w} && Stored(w)
  {
    MaskedTwice(v.prefix);
  }

  predicate CoveredBy(v: VRP, p: Prefix)
    requires p.Sized()
  {
    v.prefix.IsValid() && Covers(v.prefix, p)
  }

  predicate MatchedBy(v: VRP, p: Prefix, origin: Asn)
    requires p.Sized()
  {
    && CoveredBy(v, p)
    && p.bits <= v.maxLength
    && origin != 0
    && v.originAS == origin
  }

  function Covering(vrps: set<VRP>, p: Prefix): set<VRP>
    requires p.Sized()
  {
    set v | v in vrps && CoveredBy(v, p)
  }

  /** Valid if some VRP matches, Invalid if some covers but none matches, else NotFound. */
  function Judged(vrps: set<VRP>, p: Prefix, origin: Asn): RPKIStatus
    requires p.Sized()
  {
    if exists v :: v in vrps && MatchedBy(v, p, origin) then RPKIValid
    else if exists v :: v in vrps && CoveredBy(v, p) then RPKIInvalid
    else RPKINotFound
  }

  /** The validation state of an announcement. */
  function RovStatus(vrps: set<VRP>, p: Prefix, origin: Asn): RPKIStatus {
    if p.IsValid() then Judged(vrps, p, origin) else RPKINotFound
  }

  /** The status the code gives: an IPv4-mapped prefix is taken for an IPv4 one of the same length. */
  function Assessed(vrps: set<VRP>, p: Prefix, origin: Asn): (s: RPKIStatus)
    ensures !Is4In6(p) ==> s == RovStatus(vrps, p, origin)
  {
    if p.IsValid() then Judged(vrps, Unmapped(p), origin) else RPKINotFound
  }

  /** r answers (p, origin) as the definition does: the status, the number of distinct covering
      VRPs, and, when valid, a matching VRP that no matching VRP is more specific than. */
  ghost predicate Answers(r: Result, vrps: set<VRP>, p: Prefix, origin: Asn) {
    && r.status == Assessed(vrps, p, origin)
    && r.coveringVRPs == (if p.IsValid() then |Covering(vrps, Unmapped(p))| else 0)
    && (r.matchedVRP.Some? <==> r.status == RPKIValid)
    && (r.matchedVRP.Some? ==> p.IsValid() && BestMatch(r.matchedVRP.value, vrps, Unmapped(p), origin))
  }

  ghost predicate BestMatch(m: VRP, vrps: set<VRP>, p: Prefix, origin: Asn)
    requires p.Sized()
  {
    && m in vrps && MatchedBy(m, p, origin)
    && forall v :: v in vrps && MatchedBy(v, p, origin) ==> v.prefix.bits <= m.prefix.bits
  }

  /** The answer depends on nothing but the family, the length and the leading bits of p. */
  lemma OnlyLeadingBitsMatter(vrps: set<VRP>, p: Prefix, q: Prefix, origin: Asn)
    requires p.IsValid() && q.IsValid()
    requires p.v6 == q.v6 && p.bits == q.bits && SameBits(p.addr, q.addr, p.bits)
    ensures RovStatus(vrps, p, origin) == RovStatus(vrps, q, origin)
    ensures Covering(vrps, p) == Covering(vrps, q)
    ensures forall m :: BestMatch(m, vrps, p, origin) <==> BestMatch(m, vrps, q, origin)
  {
    forall v: VRP
      ensures CoveredBy(v, p) <==> CoveredBy(v, q)
    {
      if v.prefix.IsValid() && v.prefix.bits <= p.bits {
        assert forall d :: 0 <= d < v.prefix.bits ==> BitAt(p.addr, d) == BitAt(q.addr, d);
      }
    }
    forall v: VRP
      ensures MatchedBy(v, p, origin) <==> MatchedBy(v, q, origin)
    {
    }
  }

  /** A more specific announcement than every covering VRP allows is Invalid, not NotFound. */
  lemma TooSpecificIsInvalid(vrps: set<VRP>, p: Prefix, origin: Asn, v: VRP)
    requires p.IsValid() && v in vrps && CoveredBy(v, p)
    requires forall w :: w in vrps && CoveredBy(w, p) ==> w.maxLength < p.bits
    ensures RovStatus(vrps, p, origin) == RPKIInvalid
  {
  }

  /** An IPv4-mapped announcement longer than an IPv4 address is never Valid: no IPv4 VRP allows that
      length, and IPv6 VRPs are not looked at. */
  lemma MappedNeverValid(vrps: set<VRP>, p: Prefix, origin: Asn)
    requires forall v :: v in vrps ==> Stored(v)
    requires p.IsValid() && Is4In6(p) && p.bits > MAX_BITS_V4
    ensures Assessed(vrps, p, origin) == if exists v :: v in vrps && CoveredBy(v, Unmapped(p)) then RPKIInvalid else RPKINotFound
  {
    forall v | v in vrps && CoveredBy(v, Unmapped(p))
      ensures v.maxLength <= MAX_BITS_V4
    {
      assert v.prefix == Masked(v.prefix);
    }
  }

  /** For such an announcement, and the VRPs of one store, the code agrees with the definition exactly
      when no VRP matches it and the IPv4 VRPs cover its address just when the IPv6 ones cover it. */
  lemma MappedAgreesWhen(vrps: set<VRP>, p: Prefix, origin: Asn)
    requires forall v :: v in vrps ==> Stored(v)
    requires p.IsValid() && Is4In6(p) && p.bits > MAX_BITS_V4
    ensures Assessed(vrps, p, origin) == RovStatus(vrps, p, origin) <==>
      && (forall v :: v in vrps ==> !MatchedBy(v, p, origin))
      && ((exists v :: v in vrps && CoveredBy(v, Unmapped(p))) <==> exists v :: v in vrps && CoveredBy(v, p))
  {
    hide CoveredBy, Stored;
    MappedNeverValid(vrps, p, origin);
  }

  /** The VRP that allows an origin everything. */
  function Anything(origin: Asn): VRP {
    VRP(Prefix(true, seq(16, _ => 0), 0), MAX_BITS_V6, origin)
  }

  /** The definition and the code part on every mapped announcement of a known origin: with one VRP
      that allows the origin everything the definition says Valid, and the code finds nothing. */
  lemma MappedMisjudged(p: Prefix, origin: Asn)
    requires p.IsValid() && Is4In6(p) && origin != 0
    ensures var v := Anything(origin);
      Stored(v) && RovStatus({v}, p, origin) == RPKIValid && Assessed({v}, p, origin) == RPKINotFound
  {
    var v := Anything(origin);
    var zero := v.prefix.addr;
    assert Masked(v.prefix) == v.prefix by {
      assert MaskAddr(zero, 0) == zero;
    }
    assert !Is4In6(v.prefix) by {
      assert zero[10] == 0;
    }
    assert MatchedBy(v, p, origin);
    assert !Unmapped(p).v6;
  }

  /** The code gives the status of RFC 6811 whatever is stored and whoever announces. */
  ghost predicate AlwaysAgrees(p: Prefix) {
    forall vrps: set<VRP>, origin: Asn ::
      (forall v :: v in vrps ==> Stored(v)) ==> Assessed(vrps, p, origin) == RovStatus(vrps, p, origin)
  }

  /** Main result: the code keeps to RFC 6811 on an announcement, for all stores and origins, if and only
      if its prefix is not an IPv4-mapped one. */
  lemma AgreesExactlyOnNative(p: Prefix)
    requires p.IsValid()
    ensures AlwaysAgrees(p) <==> !Is4In6(p)
  {
    hide Stored, Assessed, RovStatus;
    if Is4In6(p) {
      MappedMisjudged(p, 1);
      assert Assessed({Anything(1)}, p, 1) != RovStatus({Anything(1)}, p, 1);
    }
  }

  // ---- The trie ----

  function Path(addr: seq<Byte>, n: nat): (path: seq<bool>)
    requires n <= 8 * |addr|
    ensures |path| == n
    ensures forall d {:trigger path[d]} :: 0 <= d < n ==> path[d] == BitAt(addr, d)
  {
    seq(n, d requires 0 <= d < n => BitAt(addr, d))
  }

  /** Where the descent along p is after n bits. */
  function KeyAt(p: Prefix, n: nat): (k: Key)
    requires p.Sized() && n <= p.Width()
    ensures |k| == n + 1
  {
    [p.v6] + Path(p.addr, n)
  }

  function KeyOf(v: VRP): Key
    requires v.prefix.IsValid()
  {
    KeyAt(v.prefix, v.prefix.bits)
  }

  lemma KeyAtSteps(p: Prefix, n: nat)
    requires p.Sized() && n < p.Width()
    ensures KeyAt(p, n + 1) == KeyAt(p, n) + [BitAt(p.addr, n)]
  {
    assert Path(p.addr, n + 1) == Path(p.addr, n) + [BitAt(p.addr, n)];
  }

  lemma StoredPrefix(w: VRP)
    requires Stored(w)
    ensures w.prefix.IsValid() && 0 <= w.prefix.bits <= 8 * |w.prefix.addr| == w.prefix.Width()
    ensures KeyOf(w) == KeyAt(w.prefix, w.prefix.bits)
  {
  }

  lemma KeyAtRoot(p: Prefix)
    requires p.Sized()
    ensures KeyAt(p, 0) == [p.v6]
  {
  }

  /** Every node is on the way to a stored VRP, or to `extra`. */
  ghost predicate LeadsSomewhere(nodes: Nodes, vrps: set<VRP>, extra: Key) {
    forall k :: k in nodes ==> k <= extra || LeadsToVRP(k, vrps)
  }

  ghost predicate LeadsToVRP(k: Key, vrps: set<VRP>) {
    exists v :: v in vrps && v.prefix.IsValid() && k <= KeyOf(v)
  }

  lemma LeadsGrow(nodes: Nodes, vrps: set<VRP>, extra: Key, k: Key, node: TrieNode)
    requires LeadsSomewhere(nodes, vrps, extra) && k <= extra
    ensures LeadsSomewhere(nodes[k := node], vrps, extra)
  {
    hide LeadsToVRP;
  }

  lemma LeadsBegin(nodes: Nodes, vrps: set<VRP>, extra: Key)
    requires LeadsSomewhere(nodes, vrps, [])
    ensures LeadsSomewhere(nodes, vrps, extra)
  {
    hide LeadsToVRP;
  }

  lemma LeadsEnd(nodes: Nodes, vrps: set<VRP>, w: VRP)
    requires w.prefix.IsValid() && LeadsSomewhere(nodes, vrps, KeyOf(w))
    ensures LeadsSomewhere(nodes, vrps + {w}, [])
  {
    forall k | k in nodes
      ensures LeadsToVRP(k, vrps + {w})
    {
      if LeadsToVRP(k, vrps) {
        var v :| v in vrps && v.prefix.IsValid() && k <= KeyOf(v);
        assert v in vrps + {w};
      } else {
        assert w in vrps + {w};
      }
    }
  }

  lemma KeyAtAncestor(p: Prefix, m: nat, n: nat)
    requires p.Sized() && m <= n <= p.Width()
    ensures KeyAt(p, n)[..m + 1] == KeyAt(p, m) && KeyAt(p, m) <= KeyAt(p, n)
  {
  }

  lemma CoverIsAncestor(q: Prefix, p: Prefix)
    requires q.IsValid() && p.Sized()
    ensures Covers(q, p) <==> q.bits <= p.bits && q.v6 == p.v6 && KeyAt(q, q.bits) == KeyAt(p, q.bits)
  {
    if q.bits <= p.bits && q.v6 == p.v6 {
      var a, b := KeyAt(q, q.bits), KeyAt(p, q.bits);
      if a == b {
        assert a[0] == b[0];
        forall d | 0 <= d < q.bits
          ensures BitAt(q.addr, d) == BitAt(p.addr, d)
        {
          assert a[d + 1] == b[d + 1];
        }
      }
    }
  }

  function Elements<T(==)>(s: seq<T>): set<T> {
    set x | x in s
  }

  /** Each VRP of the set sits once, at the key of its own prefix, and nothing else is held. */
  ghost predicate Contents(held: Held, vrps: set<VRP>) {
    && (forall v :: v in vrps ==> Stored(v) && KeyOf(v) in held && v in held[KeyOf(v)])
    && (forall k, v :: k in held && v in held[k] ==> v in vrps && KeyOf(v) == k)
    && (forall k :: k in held ==> NoRepeats(held[k]))
  }

  lemma ContentsGrow(held: Held, vrps: set<VRP>, k: Key)
    requires Contents(held, vrps) && k !in held
    ensures Contents(held[k := []], vrps)
  {
  }

  lemma ContentsAppend(held: Held, vrps: set<VRP>, w: VRP)
    requires Contents(held, vrps)
    requires Stored(w) && w !in vrps && KeyOf(w) in held
    ensures Contents(held[KeyOf(w) := held[KeyOf(w)] + [w]], vrps + {w})
  {
    var k := KeyOf(w);
    var list := held[k] + [w];
    assert w !in held[k];
    assert forall v :: v in list <==> v in held[k] || v == w;
    var after := held[k := list];
    forall v | v in vrps + {w}
      ensures Stored(v) && KeyOf(v) in after && v in after[KeyOf(v)]
    {
    }
  }

  // ---- The descent ----

  /** The VRPs of the set that cover p from a shorter prefix than n. */
  ghost function CoveringAbove(vrps: set<VRP>, p: Prefix, n: int): set<VRP>
    requires p.Sized()
  {
    set v | v in vrps && CoveredBy(v, p) && v.prefix.bits < n
  }

  /** m is the last match met so far, among the VRPs seen. */
  ghost predicate BestSoFar(m: Option<VRP>, seen: set<VRP>, p: Prefix, origin: Asn)
    requires p.Sized()
  {
    match m
    case None => forall v :: v in seen ==> !MatchedBy(v, p, origin)
    case Some(w) => BestMatch(w, seen, p, origin)
  }

  ghost predicate AllFrom(here: seq<VRP>, p: Prefix, depth: nat)
    requires p.Sized()
  {
    forall v :: v in here ==> CoveredBy(v, p) && v.prefix.bits == depth
  }

  ghost predicate AllAbove(seen: set<VRP>, depth: nat) {
    forall v :: v in seen ==> v.prefix.bits < depth
  }

  /** The VRPs held on the path of p at this depth are those covering p from this length. */
  lemma CoveringHere(held: Held, vrps: set<VRP>, p: Prefix, depth: nat)
    requires Contents(held, vrps)
    requires p.Sized() && depth <= p.bits && depth <= p.Width() && KeyAt(p, depth) in held
    ensures CoveringAbove(vrps, p, depth + 1) == CoveringAbove(vrps, p, depth) + Elements(held[KeyAt(p, depth)])
    ensures AllFrom(held[KeyAt(p, depth)], p, depth) && AllAbove(CoveringAbove(vrps, p, depth), depth)
    ensures NoRepeats(held[KeyAt(p, depth)])
  {
    forall v | v in vrps
      ensures CoveredBy(v, p) && v.prefix.bits == depth <==> v in held[KeyAt(p, depth)]
    {
      assert KeyOf(v)[0] == v.prefix.v6 && KeyAt(p, depth)[0] == p.v6;
      CoverIsAncestor(v.prefix, p);
    }
  }

  /** A VRP that covers p keeps the whole path to its own key in the tree. */
  lemma PathInTree(nodes: Nodes, held: Held, vrps: set<VRP>, v: VRP, p: Prefix, depth: nat)
    requires Closed(nodes) && nodes.Keys == held.Keys && Contents(held, vrps)
    requires p.Sized() && v in vrps && CoveredBy(v, p) && depth <= v.prefix.bits
    ensures KeyAt(p, depth) in nodes
  {
    CoverIsAncestor(v.prefix, p);
    KeyAtAncestor(p, depth, v.prefix.bits);
    assert KeyOf(v)[..depth + 1] in nodes;
  }

  /** Where the descent stops nothing that covers p is left below. */
  lemma NothingBelow(nodes: Nodes, held: Held, vrps: set<VRP>, p: Prefix, depth: nat)
    requires Closed(nodes) && nodes.Keys == held.Keys && Contents(held, vrps)
    requires p.Sized() && (depth <= p.Width() && depth <= p.bits ==> KeyAt(p, depth) !in nodes)
    ensures CoveringAbove(vrps, p, depth) == Covering(vrps, p)
  {
    forall v | v in vrps && CoveredBy(v, p)
      ensures v.prefix.bits < depth
    {
      if depth <= v.prefix.bits {
        PathInTree(nodes, held, vrps, v, p, depth);
      }
    }
  }

  /** One more VRP of the node at this depth. */
  lemma BestStep(m: Option<VRP>, seen: set<VRP>, v: VRP, p: Prefix, origin: Asn)
    requires p.Sized() && CoveredBy(v, p)
    requires forall w :: w in seen ==> w.prefix.bits <= v.prefix.bits
    requires BestSoFar(m, seen, p, origin)
    ensures BestSoFar(if p.bits <= v.maxLength && origin != 0 && v.originAS == origin then Some(v) else m, seen + {v}, p, origin)
  {
  }

  /** The loop over the VRPs of one node. */
  method ScanNode(here: seq<VRP>, prefix: Prefix, origin: Asn, covering: nat, matched: Option<VRP>, ghost above: set<VRP>, ghost depth: nat)
    returns (covering': nat, matched': Option<VRP>)
    requires prefix.Sized() && NoRepeats(here) && AllFrom(here, prefix, depth) && AllAbove(above, depth)
    requires covering == |above| && BestSoFar(matched, above, prefix, origin)
    ensures covering' == |above + Elements(here)|
    ensures BestSoFar(matched', above + Elements(here), prefix, origin)
  {
    hide *;
    covering', matched' := covering, matched;
    ghost var seen := above;
    assert above + Elements(here[..0]) == above by {
      ElementsEnds(here);
    }
    for i := 0 to |here|
      invariant seen == above + Elements(here[..i])
      invariant covering' == |seen|
      invariant BestSoFar(matched', seen, prefix, origin)
    {
      var v := here[i];
      ScanStep(here, i, above, prefix, depth);
      BestStep(matched', seen, v, prefix, origin);
      covering' := covering' + 1;
      if prefix.bits <= v.maxLength && origin != 0 && v.originAS == origin {
        matched' := Some(v);
      }
      seen := seen + {v};
    }
    ElementsEnds(here);
  }

  lemma ElementsEnds(here: seq<VRP>)
    ensures Elements(here[..0]) == {} && here[..|here|] == here
  {
  }

  /** The next VRP of a node is new, and no VRP seen so far is more specific. */
  lemma ScanStep(here: seq<VRP>, i: nat, above: set<VRP>, prefix: Prefix, depth: nat)
    requires i < |here| && prefix.Sized()
    requires NoRepeats(here) && AllFrom(here, prefix, depth) && AllAbove(above, depth)
    ensures above + Elements(here[..i + 1]) == above + Elements(here[..i]) + {here[i]}
    ensures here[i] !in above + Elements(here[..i])
    ensures CoveredBy(here[i], prefix)
    ensures forall w :: w in above + Elements(here[..i]) ==> w.prefix.bits <= here[i].prefix.bits
  {
    hide CoveredBy;
    assert here[..i + 1] == here[..i] + [here[i]];
    assert here[i] !in here[..i];
  }

  /** What has been gathered at the end of the descent is the answer. */
  lemma GatheredAnswers(vrps: set<VRP>, p: Prefix, origin: Asn, matched: Option<VRP>)
    requires p.Sized()
    requires BestSoFar(matched, Covering(vrps, p), p, origin)
    ensures matched.Some? <==> Judged(vrps, p, origin) == RPKIValid
    ensures matched.None? ==> (|Covering(vrps, p)| > 0 <==> Judged(vrps, p, origin) == RPKIInvalid)
    ensures matched.Some? ==> BestMatch(matched.value, vrps, p, origin)
  {
    assert forall v :: v in vrps && MatchedBy(v, p, origin) ==> v in Covering(vrps, p);
    if matched.None? && |Covering(vrps, p)| > 0 {
      var v :| v in Covering(vrps, p);
    }
    if matched.None? && exists v :: v in vrps && CoveredBy(v, p) {
      var v :| v in vrps && CoveredBy(v, p);
      assert v in Covering(vrps, p);
    }
  }

  /** The root a family starts from. */
  function Root(v4: TrieNode?, v6: TrieNode?, family6: bool): TrieNode? {
    if family6 then v6 else v4
  }

  ghost predicate Rooted(v4: TrieNode?, v6: TrieNode?, nodes: Nodes) {
    v4 == NodeAt(nodes, [false]) && v6 == NodeAt(nodes, [true])
  }

  /** The VRP is for this one IPv4 address. */
  predicate IsHostRoute(v: VRP, addr: seq<Byte>) {
    !v.prefix.v6 && v.prefix.bits == MAX_BITS_V4 && v.prefix.addr == addr
  }

  /** An IPv4-mapped announcement longer than an IPv4 address, for whose address there is a VRP of full
      length: the code then looks for bit 32 of 32. */
  predicate Panics(vrps: set<VRP>, p: Prefix) {
    && p.IsValid() && Is4In6(p) && p.bits > MAX_BITS_V4
    && exists v :: v in vrps && IsHostRoute(v, p.addr[12..])
  }

  /** The IPv4-mapped form of an address, with a length. */
  function MappedForm(addr: seq<Byte>, n: int): Prefix {
    Prefix(true, [0, 0, 0, 0, 0, 0, 0, 0, 0, 0, 255, 255] + addr, n)
  }

  /** The mapped forms of the IPv4 addresses are exactly the addresses taken for mapped ones. */
  lemma MappedMeans(p: Prefix)
    ensures Is4In6(p) <==> |p.addr| == 16 && p == MappedForm(p.addr[12..], p.bits)
  {
    if Is4In6(p) {
      assert p.addr == p.addr[..10] + [p.addr[10], p.addr[11]] + p.addr[12..];
    }
    if |p.addr| == 16 && p == MappedForm(p.addr[12..], p.bits) {
      assert p.addr[..10] == [0, 0, 0, 0, 0, 0, 0, 0, 0, 0];
    }
  }

  /** A stored VRP for one IPv4 address makes every longer announcement of its mapped form panic. */
  lemma HostRoutePanics(vrps: set<VRP>, v: VRP, n: nat)
    requires v in vrps && Stored(v) && !v.prefix.v6 && v.prefix.bits == MAX_BITS_V4
    requires MAX_BITS_V4 < n <= MAX_BITS_V6
    ensures Panics(vrps, MappedForm(v.prefix.addr, n))
  {
    var p := MappedForm(v.prefix.addr, n);
    assert p.addr[12..] == v.prefix.addr && IsHostRoute(v, p.addr[12..]);
    assert p.addr[..10] == [0, 0, 0, 0, 0, 0, 0, 0, 0, 0];
  }

  lemma SameHost(v: VRP, p: Prefix)
    requires Stored(v) && p.Sized() && !p.v6
    ensures IsHostRoute(v, p.addr) <==> KeyAt(p, MAX_BITS_V4) <= KeyOf(v)
    ensures IsHostRoute(v, p.addr) ==> KeyOf(v) == KeyAt(p, MAX_BITS_V4)
  {
    var k, l := KeyAt(p, MAX_BITS_V4), KeyOf(v);
    if k <= l {
      assert l[0] == k[0];
      assert v.prefix.bits == MAX_BITS_V4;
      forall d | 0 <= d < 8 * |p.addr|
        ensures BitAt(v.prefix.addr, d) == BitAt(p.addr, d)
      {
        assert l[d + 1] == k[d + 1];
      }
      SameBytes(v.prefix.addr, p.addr, |p.addr|);
      assert v.prefix.addr[..|p.addr|] == v.prefix.addr && p.addr[..|p.addr|] == p.addr;
    }
  }

  lemma StoredInTree(held: Held, vrps: set<VRP>, v: VRP)
    requires Contents(held, vrps) && v in vrps
    ensures Stored(v) && v.prefix.IsValid() && KeyOf(v) in held
  {
  }

  lemma LeadsFrom(nodes: Nodes, vrps: set<VRP>, k: Key) returns (v: VRP)
    requires LeadsSomewhere(nodes, vrps, []) && k in nodes && |k| > 0
    ensures v in vrps && v.prefix.IsValid() && k <= KeyOf(v)
  {
    hide KeyOf;
    assert LeadsToVRP(k, vrps);
    v :| v in vrps && v.prefix.IsValid() && k <= KeyOf(v);
  }

  lemma DeepestNode(nodes: Nodes, held: Held, vrps: set<VRP>, p: Prefix)
    requires nodes.Keys == held.Keys && Contents(held, vrps) && LeadsSomewhere(nodes, vrps, [])
    requires p.Sized() && !p.v6
    ensures KeyAt(p, MAX_BITS_V4) in nodes <==> exists v :: v in vrps && IsHostRoute(v, p.addr)
  {
    hide KeyAt, KeyOf, IsHostRoute, Contents, LeadsSomewhere, Stored;
    var k := KeyAt(p, MAX_BITS_V4);
    if k in nodes {
      var v := LeadsFrom(nodes, vrps, k);
      StoredInTree(held, vrps, v);
      SameHost(v, p);
    }
    if exists v :: v in vrps && IsHostRoute(v, p.addr) {
      var v :| v in vrps && IsHostRoute(v, p.addr);
      StoredInTree(held, vrps, v);
      SameHost(v, p);
    }
  }

  class VRPStore {
    const v4: TrieNode?
    const v6: TrieNode?
    const size: nat
    ghost const nodes: Nodes
    ghost const held: Held
    ghost const repr: set<TrieNode>
    ghost const vrps: set<VRP>

    ghost predicate Valid()
      reads repr
    {
      && IsTrie(nodes, held, repr)
      && Rooted(v4, v6, nodes)
      && Contents(held, vrps)
      && LeadsSomewhere(nodes, vrps, [])
      && size == |vrps|
    }

    constructor (v4: TrieNode?, v6: TrieNode?, size: nat,
                 ghost nodes: Nodes, ghost held: Held, ghost repr: set<TrieNode>, ghost vrps: set<VRP>)
      requires IsTrie(nodes, held, repr) && Rooted(v4, v6, nodes) && Contents(held, vrps) && size == |vrps|
      requires LeadsSomewhere(nodes, vrps, [])
      ensures Valid()
      ensures this.vrps == vrps && this.repr == repr
    {
      hide IsTrie, Rooted, Contents, LeadsSomewhere;
      this.v4, this.v6, this.size := v4, v6, size;
      this.nodes, this.held, this.repr, this.vrps := nodes, held, repr, vrps;
    }

    /** Main result: the descent answers exactly as the definition over the set of stored VRPs, for
        every announcement that does not make it panic; and no native prefix does. */
    method Validate(prefix: Prefix, origin: Asn) returns (r: Validation)
      requires Valid()
      ensures r.IndexPanic? <==> Panics(vrps, prefix)
      ensures r.Answered? ==> Answers(r.result, vrps, prefix, origin)
      ensures !Is4In6(prefix) ==> r.Answered? && r.result.status == RovStatus(vrps, prefix, origin)
    {
      if !prefix.IsValid() {
        return Answered(Result(RPKINotFound, None, 0));
      }
      var p := Unmapped(prefix);
      var covering, matched, panics := Descend(p, origin);
      HostRouteIsDeepest(prefix);
      if panics {
        return IndexPanic;
      }
      GatheredAnswers(vrps, p, origin, matched);
      if matched.Some? {
        return Answered(Result(RPKIValid, matched, covering));
      } else if covering > 0 {
        return Answered(Result(RPKIInvalid, None, covering));
      } else {
        return Answered(Result(RPKINotFound, None, 0));
      }
    }

    /** The loop of Validate. */
    method Descend(prefix: Prefix, origin: Asn) returns (covering: nat, matched: Option<VRP>, panics: bool)
      requires Valid() && prefix.Sized()
      ensures panics <==> prefix.bits > prefix.Width() && KeyAt(prefix, prefix.Width()) in nodes
      ensures !panics ==> covering == |Covering(vrps, prefix)|
      ensures !panics ==> BestSoFar(matched, Covering(vrps, prefix), prefix, origin)
    {
      hide *;
      var node := Root(v4, v6, prefix.v6);
      var depth := 0;
      covering, matched, panics := 0, None, false;
      DescentStarts(prefix, origin);
      ghost var width := prefix.Width();
      while node != null
        invariant 0 <= depth <= prefix.bits + 1 && depth <= width + 1
        invariant depth <= prefix.bits ==> depth <= width && node == NodeAt(nodes, KeyAt(prefix, depth))
        invariant depth == prefix.bits + 1 ==> node == null
        invariant covering == |CoveringAbove(vrps, prefix, depth)|
        invariant BestSoFar(matched, CoveringAbove(vrps, prefix, depth), prefix, origin)
        decreases prefix.bits + 1 - depth
      {
        AtKey(nodes, held, repr, KeyAt(prefix, depth), node);
        CoveringHere(held, vrps, prefix, depth);
        covering, matched := ScanNode(node.vrps, prefix, origin, covering, matched, CoveringAbove(vrps, prefix, depth), depth);
        if depth == prefix.bits {
          depth := depth + 1;
          break;
        }
        if depth == 8 * |prefix.addr| {
          panics := true;
          return;
        }
        KeyAtSteps(prefix, depth);
        node := node.Next(BitAt(prefix.addr, depth));
        depth := depth + 1;
      }
      if depth <= prefix.bits {
        AtKey(nodes, held, repr, KeyAt(prefix, depth), node);
        OffTheTree(prefix, depth);
      }
      NothingBelow(nodes, held, vrps, prefix, depth);
    }

    /** The IPv4 trie goes all the way down an address exactly when a VRP for that one address is stored. */
    lemma HostRouteIsDeepest(prefix: Prefix)
      requires Valid() && prefix.IsValid()
      ensures var p := Unmapped(prefix);
        p.bits > p.Width() && KeyAt(p, p.Width()) in nodes <==> Panics(vrps, prefix)
    {
      hide IsTrie, Contents, LeadsSomewhere, Rooted, Is4In6;
      TrieFacts();
      if Is4In6(prefix) {
        DeepestNode(nodes, held, vrps, Unmapped(prefix));
      }
    }

    lemma TrieFacts()
      requires Valid()
      ensures nodes.Keys == held.Keys && Contents(held, vrps) && LeadsSomewhere(nodes, vrps, [])
    {
      hide Contents, LeadsSomewhere, Rooted;
    }

    /** The tree has all of a path or what is below it is off the tree. */
    lemma OffTheTree(prefix: Prefix, depth: nat)
      requires Valid() && prefix.Sized() && depth <= prefix.Width()
      ensures KeyAt(prefix, prefix.Width()) in nodes ==> KeyAt(prefix, depth) in nodes
    {
      hide Contents, KeyAt;
      KeyAtAncestor(prefix, depth, prefix.Width());
    }

    lemma DescentStarts(prefix: Prefix, origin: Asn)
      requires Valid() && prefix.Sized()
      ensures IsTrie(nodes, held, repr) && Contents(held, vrps) && Closed(nodes) && nodes.Keys == held.Keys
      ensures Root(v4, v6, prefix.v6) == NodeAt(nodes, KeyAt(prefix, 0))
      ensures 0 <= prefix.bits && 8 * |prefix.addr| == prefix.Width()
      ensures |CoveringAbove(vrps, prefix, 0)| == 0
      ensures BestSoFar(None, CoveringAbove(vrps, prefix, 0), prefix, origin)
    {
      hide Contents;
      KeyAtRoot(prefix);
      forall v: VRP
        ensures v !in CoveringAbove(vrps, prefix, 0)
      {
      }
    }
  }

  class Builder {
    var v4: TrieNode?
    var v6: TrieNode?
    var size: nat
    var seen: set<VRP>
    ghost var nodes: Nodes
    ghost var held: Held
    ghost var repr: set<TrieNode>

    ghost predicate Valid()
      reads this, repr
    {
      Growing([])
    }

    /** A trie of the VRPs seen, but for nodes on the way to `extra`. */
    ghost predicate Growing(extra: Key)
      reads this, repr
    {
      && IsTrie(nodes, held, repr)
      && Rooted(v4, v6, nodes)
      && Contents(held, seen)
      && LeadsSomewhere(nodes, seen, extra)
      && size == |seen|
    }

    constructor ()
      ensures Valid()
      ensures seen == {} && repr == {}
    {
      v4, v6, size, seen := null, null, 0, {};
      nodes, held, repr := map[], map[], {};
    }

    /** Inserts a VRP: masked, range-checked and ignored when already present. */
    method Add(v: VRP) returns (err: Option<AddError>)
      requires Valid()
      modifies this, repr
      ensures Valid() && fresh(repr - old(repr))
      ensures err == Refusal(v)
      ensures seen == old(seen) + InRange({v})
    {
      hide *;
      if !v.prefix.IsValid() {
        RefusedWhen(v);
        return Some(InvalidPrefix);
      }
      var prefix := Masked(v.prefix);
      var w := VRP(prefix, v.maxLength, v.originAS);
      var bits := if prefix.v6 && !Is4In6(prefix) then MAX_BITS_V6 else MAX_BITS_V4;
      var pl := prefix.bits;
      RefusedWhen(v);
      if w.maxLength < pl || w.maxLength > bits {
        return Some(MaxLengthOutOfRange);
      }
      if w in seen {
        return None;
      }
      Insert(w);
      return None;
    }

    /** The descent of Add, which makes the missing nodes, and the append at its end. */
    method Insert(w: VRP)
      requires Valid()
      requires Stored(w) && w !in seen
      modifies this, repr
      ensures Valid() && fresh(repr - old(repr))
      ensures seen == old(seen) + {w}
    {
      hide *;
      var prefix := w.prefix;
      StoredPrefix(w);
      KeyAtRoot(prefix);
      ghost var goal := KeyOf(w);
      Begins(goal);
      KeyAtAncestor(prefix, 0, prefix.bits);
      var node := RootNode(goal, prefix.v6);
      var d := 0;
      while d < prefix.bits
        invariant 0 <= d <= prefix.bits <= 8 * |prefix.addr| == prefix.Width()
        invariant Growing(goal) && seen == old(seen) && fresh(repr - old(repr))
        invariant node == NodeAt(nodes, KeyAt(prefix, d))
      {
        KeyAtSteps(prefix, d);
        KeyAtAncestor(prefix, d, prefix.bits);
        KeyAtAncestor(prefix, d + 1, prefix.bits);
        InTree(goal, KeyAt(prefix, d), node);
        node := ChildNode(goal, KeyAt(prefix, d), node, BitAt(prefix.addr, d));
        d := d + 1;
      }
      InTree(goal, goal, node);
      PutAt(goal, node, w);
    }

    lemma Begins(goal: Key)
      requires Valid()
      ensures Growing(goal)
    {
      hide IsTrie, Contents, Rooted, LeadsSomewhere;
      LeadsBegin(nodes, seen, goal);
    }

    /** A pointer that follows the path to the goal is the node it has got to. */
    lemma InTree(goal: Key, k: Key, node: TrieNode)
      requires Growing(goal) && node == NodeAt(nodes, k)
      ensures k in nodes && k in held && node == nodes[k] && node in repr
    {
      hide Contents, LeadsSomewhere;
    }

    method PutAt(ghost k: Key, node: TrieNode, w: VRP)
      requires Stored(w) && w !in seen && k == KeyOf(w)
      requires Growing(k)
      requires k in nodes && k in held && node == nodes[k]
      modifies this`held, this`seen, this`size, node`vrps
      ensures Valid()
      ensures seen == old(seen) + {w}
    {
      hide *;
      PutFacts(k);
      StoredPrefix(w);
      ContentsAppend(held, seen, w);
      LeadsEnd(nodes, seen, w);
      Append(nodes, held, repr, k, node, w);
      held := held[k := held[k] + [w]];
      seen := seen + {w};
      size := size + 1;
      Sealed();
    }

    lemma PutFacts(extra: Key)
      requires Growing(extra)
      ensures IsTrie(nodes, held, repr) && Rooted(v4, v6, nodes) && Contents(held, seen) && size == |seen|
      ensures LeadsSomewhere(nodes, seen, extra)
    {
      hide IsTrie, Contents, LeadsSomewhere;
    }

    lemma Sealed()
      requires IsTrie(nodes, held, repr) && Rooted(v4, v6, nodes) && Contents(held, seen) && size == |seen|
      requires LeadsSomewhere(nodes, seen, [])
      ensures Valid()
    {
      hide IsTrie, Contents, LeadsSomewhere;
    }

    /** The root of a family, made on first use on the way to a goal. */
    method RootNode(ghost goal: Key, family6: bool) returns (node: TrieNode)
      requires Growing(goal) && [family6] <= goal
      modifies this`v4, this`v6, this`nodes, this`held, this`repr
      ensures Growing(goal) && fresh(repr - old(repr))
      ensures node == NodeAt(nodes, [family6])
    {
      hide Contents, IsTrie, LeadsSomewhere;
      var root := Root(v4, v6, family6);
      AtKey(nodes, held, repr, [family6], root);
      if root != null {
        return root;
      }
      node := MakeRoot(nodes, held, repr, family6);
      ContentsGrow(held, seen, [family6]);
      LeadsGrow(nodes, seen, goal, [family6], node);
      assert [true] != [false] by {
        assert [true][0] != [false][0];
      }
      if family6 {
        v6 := node;
      } else {
        v4 := node;
      }
      nodes, held, repr := nodes[[family6] := node], held[[family6] := []], repr + {node};
    }

    /** The child of a node for the next bit, made on first use on the way to a goal. */
    method ChildNode(ghost goal: Key, ghost k: Key, node: TrieNode, bit: bool) returns (child: TrieNode)
      requires Growing(goal) && k + [bit] <= goal
      requires k in nodes && node == nodes[k]
      modifies this`nodes, this`held, this`repr, node`child0, node`child1
      ensures Growing(goal) && fresh(repr - old(repr))
      ensures child == NodeAt(nodes, k + [bit])
    {
      hide Contents, IsTrie, LeadsSomewhere;
      AtKey(nodes, held, repr, k, node);
      var next := node.Next(bit);
      AtKey(nodes, held, repr, k + [bit], next);
      if next != null {
        return next;
      }
      child := MakeChild(nodes, held, repr, k, node, bit);
      ContentsGrow(held, seen, k + [bit]);
      LeadsGrow(nodes, seen, goal, k + [bit], child);
      assert |k + [bit]| > 1;
      nodes, held, repr := nodes[k + [bit] := child], held[k + [bit] := []], repr + {child};
    }

    method Build() returns (s: VRPStore)
      requires Valid()
      ensures fresh(s) && s.Valid()
      ensures s.vrps == seen && s.repr == repr
    {
      s := new VRPStore(v4, v6, size, nodes, held, repr, seen);
    }
  }
}
