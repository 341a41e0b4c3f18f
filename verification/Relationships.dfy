/** The AS-relationship store (internal/relationships/store.go). Each unordered pair is kept
    once, from the smaller AS's side; the other direction is derived on lookup. */
module Relationships {
  import opened Bgp
  import opened Sums

  /** A canonical unordered AS pair, lo < hi once it is in a store. */
  datatype PairKey = PairKey(lo: Asn, hi: Asn)

  function KeyOf(a: Asn, b: Asn): PairKey {
    if a > b then PairKey(b, a) else PairKey(a, b)
  }

  /** The relationship of the smaller AS toward the larger when rel is a's view of b. */
  function Canonical(a: Asn, b: Asn, rel: RelStatus): RelStatus {
    if a > b then rel.Invert() else rel
  }

  type Edges = map<PairKey, RelStatus>

  predicate CanonicalKeys(edges: Edges) {
    forall k :: k in edges ==> k.lo < k.hi
  }

  /** The sealed graph: a value, since nothing changes it after Build. */
  datatype RelStore = RelStore(edges: Edges, names: map<Asn, string>, degree: map<Asn, nat>) {

    /** The relationship of a toward b. */
    function Lookup(a: Asn, b: Asn): (r: RelStatus)
      ensures a == b ==> r == RelSibling
      ensures a != b && KeyOf(a, b) !in edges ==> r == RelUnknown
    {
      if a == b then RelSibling
      else
        var swapped := a > b;
        var key := if swapped then PairKey(b, a) else PairKey(a, b);
        if key !in edges then RelUnknown
        else if swapped then edges[key].Invert()
        else edges[key]
    }

    function Name(asn: Asn): string {
      if asn in names then names[asn] else ""
    }

    function Degree(asn: Asn): nat {
      if asn in degree then degree[asn] else 0
    }

    function Size(): nat {
      |edges|
    }

    /** The ASes at the other end of an edge of asn. */
    ghost function Neighbors(asn: Asn): set<Asn> {
      (set k | k in edges && k.lo == asn :: k.hi) + (set k | k in edges && k.hi == asn :: k.lo)
    }

    lemma InNeighbors(a: Asn, b: Asn)
      requires CanonicalKeys(edges)
      ensures b in Neighbors(a) <==> a != b && KeyOf(a, b) in edges
    {
      if a != b && KeyOf(a, b) in edges {
        assert KeyOf(a, b).lo == a || KeyOf(a, b).hi == a;
      }
    }

    /** The two ends of a link have opposite views of it. */
    lemma LookupIsInversionSymmetric(a: Asn, b: Asn)
      ensures Lookup(a, b) == Lookup(b, a).Invert()
    {
    }
  }

  /** Why an Add was refused. */
  datatype AddError = SelfPair(asn: Asn) | Conflict(key: PairKey, existing: RelStatus, offered: RelStatus)

  class Builder {
    var edges: Edges
    var neighbors: map<Asn, set<Asn>>
    var names: map<Asn, string>

    /** The neighbor sets are those of the edges, and their sizes add up to twice the edge count. */
    ghost predicate Valid()
      reads this
    {
      && CanonicalKeys(edges)
      && SameLinks(neighbors, edges)
      && SumMap(Degrees(neighbors)) == 2 * |edges|
    }

    constructor ()
      ensures Valid()
      ensures edges == map[] && names == map[]
    {
      edges, neighbors, names := map[], map[], map[];
    }

    /** Records that b is rel from a's side. A fact once accepted stays: a repeated fact is
        ignored, and one that contradicts an accepted fact is refused. */
    method Add(a: Asn, c: Asn, rel: RelStatus) returns (err: Option<AddError>)
      requires Valid()
      modifies this`edges, this`neighbors
      ensures Valid()
      ensures err == Refusal(old(edges), a, c, rel)
      ensures edges == AfterAdd(old(edges), a, c, rel)
    {
      if a == c {
        return Some(SelfPair(a));
      }
      var lo, hi, canon := a, c, rel;
      if lo > hi {
        lo, hi := hi, lo;
        canon := rel.Invert();
      }
      var key := PairKey(lo, hi);
      assert key == KeyOf(a, c) && key == KeyOf(c, a) && canon == Canonical(a, c, rel);
      if key in edges {
        if edges[key] != canon {
          return Some(Conflict(key, edges[key], canon));
        }
        return None;
      }
      Link(a, c, canon);
      return None;
    }

    /** The writes of an accepted Add: the edge, and each end among the other's neighbors. */
    method Link(a: Asn, c: Asn, canon: RelStatus)
      requires Valid()
      requires a != c && KeyOf(a, c) !in edges
      modifies this`edges, this`neighbors
      ensures Valid()
      ensures edges == old(edges)[KeyOf(a, c) := canon]
    {
      LinkAdded(neighbors, edges, a, c, canon);
      edges := edges[KeyOf(a, c) := canon];
      AddNeighbor(a, c);
      AddNeighbor(c, a);
    }

    method AddNeighbor(a: Asn, c: Asn)
      modifies this`neighbors
      ensures neighbors == WithNeighbor(old(neighbors), a, c)
    {
      var s: set<Asn> := {};
      if a in neighbors {
        s := neighbors[a];
      }
      neighbors := neighbors[a := s + {c}];
    }

    method SetName(asn: Asn, name: string)
      modifies this`names
      ensures names == if name == "" then old(names) else old(names)[asn := name]
    {
      if name != "" {
        names := names[asn := name];
      }
    }

    method Build() returns (s: RelStore)
      requires Valid()
      ensures s.edges == edges && s.names == names
      ensures SumMap(s.degree) == 2 * s.Size()
      ensures forall a :: s.Degree(a) == |s.Neighbors(a)|
    {
      var degree: map<Asn, nat> := map a | a in neighbors :: |neighbors[a]|;
      assert degree == Degrees(neighbors);
      s := RelStore(edges, names, degree);
      forall a: Asn
        ensures s.Degree(a) == |s.Neighbors(a)|
      {
        forall b: Asn
          ensures b in s.Neighbors(a) <==> IsNeighbor(neighbors, a, b)
        {
          s.InNeighbors(a, b);
        }
        assert s.Neighbors(a) == if a in neighbors then neighbors[a] else {};
      }
    }
  }

  /** Why the fact that b is rel from a's side is refused, if it is. */
  function Refusal(edges: Edges, a: Asn, c: Asn, rel: RelStatus): Option<AddError> {
    var key, canon := KeyOf(a, c), Canonical(a, c, rel);
    if a == c then Some(SelfPair(a))
    else if key in edges && edges[key] != canon then Some(Conflict(key, edges[key], canon))
    else None
  }

  /** The edges after the fact is offered. */
  function AfterAdd(edges: Edges, a: Asn, c: Asn, rel: RelStatus): Edges {
    if a == c || KeyOf(a, c) in edges then edges else edges[KeyOf(a, c) := Canonical(a, c, rel)]
  }

  /** An Add that reports no error makes the fact true on lookup from both sides, one that
      reports an error was not already true, and no Add changes what is already known. */
  lemma AddIsFaithful(before: RelStore, after: RelStore, a: Asn, c: Asn, rel: RelStatus, x: Asn, y: Asn)
    requires after.edges == AfterAdd(before.edges, a, c, rel)
    ensures Refusal(before.edges, a, c, rel).None? <==> a != c && after.Lookup(a, c) == rel && KeyOf(a, c) in after.edges
    ensures Refusal(before.edges, a, c, rel).None? ==> after.Lookup(c, a) == rel.Invert()
    ensures KeyOf(x, y) in before.edges || KeyOf(x, y) != KeyOf(a, c) ==> after.Lookup(x, y) == before.Lookup(x, y)
  {
  }

  /** A run of Adds: the edges after a list of facts (a, b, rel). */
  function AfterAdds(edges: Edges, facts: seq<(Asn, Asn, RelStatus)>): Edges
    decreases |facts|
  {
    if |facts| == 0 then edges
    else AfterAdds(AfterAdd(edges, facts[0].0, facts[0].1, facts[0].2), facts[1..])
  }

  /** Fact i is the first one about the pair. */
  ghost predicate FirstFor(facts: seq<(Asn, Asn, RelStatus)>, key: PairKey, i: int) {
    && 0 <= i < |facts|
    && KeyOf(facts[i].0, facts[i].1) == key
    && forall j :: 0 <= j < i ==> KeyOf(facts[j].0, facts[j].1) != key
  }

  /** Over a whole run of Adds an accepted fact is never overwritten. */
  lemma {:induction false} AcceptedFactStays(edges: Edges, facts: seq<(Asn, Asn, RelStatus)>, key: PairKey)
    requires key in edges
    ensures key in AfterAdds(edges, facts) && AfterAdds(edges, facts)[key] == edges[key]
    decreases |facts|
  {
    if |facts| > 0 {
      AcceptedFactStays(AfterAdd(edges, facts[0].0, facts[0].1, facts[0].2), facts[1..], key);
    }
  }

  /** The first fact offered for a pair decides it, whatever is offered later. */
  lemma {:induction false} FirstFactWins(edges: Edges, facts: seq<(Asn, Asn, RelStatus)>, key: PairKey, i: nat)
    requires key.lo < key.hi && key !in edges && FirstFor(facts, key, i)
    ensures key in AfterAdds(edges, facts)
    ensures AfterAdds(edges, facts)[key] == Canonical(facts[i].0, facts[i].1, facts[i].2)
    decreases |facts|
  {
    var next := AfterAdd(edges, facts[0].0, facts[0].1, facts[0].2);
    if i == 0 {
      AcceptedFactStays(next, facts[1..], key);
    } else {
      FirstFactWins(next, facts[1..], key, i - 1);
    }
  }

  predicate IsNeighbor(neighbors: map<Asn, set<Asn>>, a: Asn, b: Asn) {
    a in neighbors && b in neighbors[a]
  }

  function Degrees(neighbors: map<Asn, set<Asn>>): map<Asn, int> {
    map a | a in neighbors :: |neighbors[a]|
  }

  function WithNeighbor(neighbors: map<Asn, set<Asn>>, a: Asn, c: Asn): map<Asn, set<Asn>> {
    neighbors[a := (if a in neighbors then neighbors[a] else {}) + {c}]
  }

  /** The neighbor sets hold exactly the ends of the edges. */
  ghost predicate SameLinks(neighbors: map<Asn, set<Asn>>, edges: Edges) {
    forall a: Asn, b: Asn :: IsNeighbor(neighbors, a, b) <==> a != b && KeyOf(a, b) in edges
  }

  /** A new neighbor adds one to the sum of degrees. */
  lemma NeighborAdded(neighbors: map<Asn, set<Asn>>, a: Asn, c: Asn)
    requires !IsNeighbor(neighbors, a, c)
    ensures SumMap(Degrees(WithNeighbor(neighbors, a, c))) == SumMap(Degrees(neighbors)) + 1
  {
    var s := if a in neighbors then neighbors[a] else {};
    assert |s + {c}| == |s| + 1;
    SumUpdate(Degrees(neighbors), a, |s| + 1);
    assert Degrees(WithNeighbor(neighbors, a, c)) == Degrees(neighbors)[a := |s| + 1];
  }

  lemma NeighborsAfter(neighbors: map<Asn, set<Asn>>, a: Asn, c: Asn, x: Asn, y: Asn)
    ensures IsNeighbor(WithNeighbor(neighbors, a, c), x, y) <==> IsNeighbor(neighbors, x, y) || (x == a && y == c)
  {
  }

  /** A new edge, entered on both sides, keeps the neighbor sets and the degree sum in step. */
  lemma LinkAdded(neighbors: map<Asn, set<Asn>>, edges: Edges, a: Asn, c: Asn, rel: RelStatus)
    requires a != c && KeyOf(a, c) !in edges
    requires SameLinks(neighbors, edges)
    requires SumMap(Degrees(neighbors)) == 2 * |edges|
    ensures var n := WithNeighbor(WithNeighbor(neighbors, a, c), c, a);
      && SameLinks(n, edges[KeyOf(a, c) := rel])
      && SumMap(Degrees(n)) == 2 * |edges[KeyOf(a, c) := rel]|
  {
    var m := WithNeighbor(neighbors, a, c);
    NeighborAdded(neighbors, a, c);
    NeighborsAfter(neighbors, a, c, c, a);
    assert !IsNeighbor(m, c, a);
    NeighborAdded(m, c, a);
    forall x: Asn, y: Asn
      ensures IsNeighbor(WithNeighbor(m, c, a), x, y) <==> x != y && KeyOf(x, y) in edges[KeyOf(a, c) := rel]
    {
      NeighborsAfter(m, c, a, x, y);
      NeighborsAfter(neighbors, a, c, x, y);
    }
  }
}
