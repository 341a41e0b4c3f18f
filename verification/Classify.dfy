/** The combined verdict (internal/classify/classify.go): origin validation before the
    valley-free walk. */
module Classify {
  import opened Bgp
  import Relationships
  import Rpki
  import ValleyFree
  import Tries

  type RelStore = Relationships.RelStore

  /** A relationship store as the walk's oracle. */
  function Oracle(rel: RelStore): ValleyFree.RelLookup {
    (a: Asn, b: Asn) => rel.Lookup(a, b)
  }

  /** An event with its verdict, given the relationships and the VRPs. */
  function Classify(ev: UpdateEvent, rel: RelStore, vrps: set<Tries.VRP>): ClassifiedEvent {
    if ev.kind == Withdraw then ClassifiedEvent(ev, VFValid, RPKINotFound, [], 0, NoReason)
    else
      var vf := ValleyFree.PathVerdict(ev.asPath, ev.hasASSet, Oracle(rel));
      var originKnown := ev.originAS != 0;
      var rpki := if originKnown then Rpki.Assessed(vrps, ev.prefix, ev.originAS) else RPKINotFound;
      if originKnown && rpki == RPKIInvalid then
        ClassifiedEvent(ev, VFHijack, rpki, vf.hops, ev.originAS,
                        UnauthorizedOrigin(ev.originAS, ev.prefix, if vf.isLeak then vf.reason else NoReason))
      else if vf.isLeak then
        ClassifiedEvent(ev, VFLeak, rpki, vf.hops, vf.offenderAS, vf.reason)
      else if |ev.asPath| > 1 && vf.knownHops == 0 then
        ClassifiedEvent(ev, VFUnknown, rpki, vf.hops, 0, NoReason)
      else
        ClassifiedEvent(ev, VFValid, rpki, vf.hops, 0, NoReason)
  }

  /** Origin validation indexes outside the address. */
  predicate Panics(ev: UpdateEvent, vrps: set<Tries.VRP>) {
    ev.kind == Announce && ev.originAS != 0 && Rpki.Panics(vrps, ev.prefix)
  }

  /** The verdict as the pipeline computes it, with the walk and the trie; nothing comes of a panic. */
  method ClassifyEvent(ev: UpdateEvent, rel: RelStore, store: Rpki.VRPStore) returns (r: Option<ClassifiedEvent>)
    requires store.Valid()
    ensures r == if Panics(ev, store.vrps) then None else Some(Classify(ev, rel, store.vrps))
  {
    if ev.kind == Withdraw {
      return Some(ClassifiedEvent(ev, VFValid, RPKINotFound, [], 0, NoReason));
    }
    var vf := ValleyFree.ClassifyPath(ev.asPath, ev.hasASSet, Oracle(rel));
    var rpki := RPKINotFound;
    if ev.originAS != 0 {
      var v := store.Validate(ev.prefix, ev.originAS);
      if v.IndexPanic? {
        return None;
      }
      rpki := v.result.status;
    }
    var out := ClassifiedEvent(ev, VFValid, rpki, vf.hops, 0, NoReason);
    if ev.originAS != 0 && rpki == RPKIInvalid {
      var also := if vf.isLeak then vf.reason else NoReason;
      out := out.(vfStatus := VFHijack, offenderAS := ev.originAS, reason := UnauthorizedOrigin(ev.originAS, ev.prefix, also));
    } else if vf.isLeak {
      out := out.(vfStatus := VFLeak, offenderAS := vf.offenderAS, reason := vf.reason);
    } else if |ev.asPath| > 1 && vf.knownHops == 0 {
      out := out.(vfStatus := VFUnknown);
    }
    r := Some(out);
  }

  /** Any relationship store gives the two ends of a link opposite views, so over the real store a
      path and its reverse leak together. */
  lemma StoreReversal(path: seq<Asn>, rel: RelStore)
    ensures ValleyFree.InversionSymmetric(Oracle(rel))
    ensures ValleyFree.PathVerdict(ValleyFree.Reverse(path), false, Oracle(rel)).isLeak
      == ValleyFree.PathVerdict(path, false, Oracle(rel)).isLeak
  {
    hide ValleyFree.PathVerdict;
    forall a: Asn, b: Asn
      ensures Oracle(rel)(a, b) == Oracle(rel)(b, a).Invert()
    {
      rel.LookupIsInversionSymmetric(a, b);
    }
    ValleyFree.ReversalPreservesLeak(path, Oracle(rel));
  }

  /** Precedence: an announcement is a hijack exactly when its known origin is Invalid, a leak exactly
      when it is no hijack and its path has a valley, and someone is blamed only then. */
  lemma Precedence(ev: UpdateEvent, rel: RelStore, vrps: set<Tries.VRP>)
    ensures var c := Classify(ev, rel, vrps);
      && (c.vfStatus == VFHijack <==>
            ev.kind == Announce && ev.originAS != 0 && Rpki.Assessed(vrps, ev.prefix, ev.originAS) == RPKIInvalid)
      && (c.vfStatus == VFHijack <==> c.rpkiStatus == RPKIInvalid)
      && (c.vfStatus == VFLeak <==>
            ev.kind == Announce && c.rpkiStatus != RPKIInvalid
            && !ev.hasASSet && ValleyFree.HasValley(ValleyFree.Dedupe(ev.asPath), Oracle(rel)))
      && (c.reason == NoReason <==> c.vfStatus == VFValid || c.vfStatus == VFUnknown)
  {
  }

  /** The store knows no relationship between neighbours on the path, prepending aside. */
  predicate NothingKnown(path: seq<Asn>, rel: RelStore) {
    var s := ValleyFree.Dedupe(path);
    forall k :: 0 <= k < |s| - 1 ==> rel.Lookup(s[k], s[k + 1]) == RelUnknown
  }

  /** A path with nothing known about it has no valley, whichever way it is read. */
  lemma NothingKnownNoLeak(path: seq<Asn>, hasASSet: bool, rel: RelStore)
    requires NothingKnown(path, rel)
    ensures !ValleyFree.PathVerdict(path, hasASSet, Oracle(rel)).isLeak
  {
    var s := ValleyFree.Dedupe(path);
    forall h, g | 0 <= h < g < |s| - 1
      ensures !ValleyFree.Clash(s, Oracle(rel), h, g)
    {
      rel.LookupIsInversionSymmetric(s[h + 1], s[h]);
    }
    assert !ValleyFree.HasValley(s, Oracle(rel));
  }

  /** Unknown is the verdict exactly for an announcement over more than one entry, prepended or not, that
      is not Invalid and of whose adjacencies no relationship is known. Valid is then what remains. */
  lemma UnknownExactlyWhen(ev: UpdateEvent, rel: RelStore, vrps: set<Tries.VRP>)
    ensures Classify(ev, rel, vrps).vfStatus == VFUnknown <==>
      && ev.kind == Announce && |ev.asPath| > 1
      && !(ev.originAS != 0 && Rpki.Assessed(vrps, ev.prefix, ev.originAS) == RPKIInvalid)
      && NothingKnown(ev.asPath, rel)
  {
    hide Rpki.Assessed, ValleyFree.ValleyHop;
    var vf := ValleyFree.PathVerdict(ev.asPath, ev.hasASSet, Oracle(rel));
    KnownAdjacencies(ev.asPath, ev.hasASSet, rel);
    if NothingKnown(ev.asPath, rel) {
      NothingKnownNoLeak(ev.asPath, ev.hasASSet, rel);
    }
  }

  lemma KnownAdjacencies(path: seq<Asn>, hasASSet: bool, rel: RelStore)
    ensures ValleyFree.PathVerdict(path, hasASSet, Oracle(rel)).knownHops == 0 <==> NothingKnown(path, rel)
  {
    hide ValleyFree.ValleyHop;
    var s := ValleyFree.Dedupe(path);
    var hops := ValleyFree.Hops(s, Oracle(rel));
    ValleyFree.NoneKnown(hops);
    forall k | 0 <= k < |s| - 1
      ensures rel.Lookup(s[k], s[k + 1]) == hops[k].rel
    {
      assert hops[k] == ValleyFree.HopAt(s, Oracle(rel), k);
    }
  }

  /** Who is blamed and for what: the origin of a hijack, with what its path leaks besides; the AS the walk
      blames for a leak; nobody otherwise. */
  lemma BlameIs(ev: UpdateEvent, rel: RelStore, vrps: set<Tries.VRP>)
    ensures var c, vf := Classify(ev, rel, vrps), ValleyFree.PathVerdict(ev.asPath, ev.hasASSet, Oracle(rel));
      && (c.vfStatus == VFHijack ==> c.offenderAS == ev.originAS && c.reason == UnauthorizedOrigin(ev.originAS, ev.prefix, vf.reason))
      && (c.vfStatus == VFLeak ==> c.offenderAS == vf.offenderAS && c.reason == vf.reason)
      && (c.vfStatus == VFValid || c.vfStatus == VFUnknown ==> c.offenderAS == 0 && c.reason == NoReason)
      && c.hops == if ev.kind == Announce then vf.hops else []
  {
    hide ValleyFree.PathVerdict, Rpki.Assessed;
    ValleyFree.NoLeakNoOffender(ev.asPath, ev.hasASSet, Oracle(rel));
  }

  /** An event of unknown origin, and a withdraw, say nothing about origins. */
  lemma NeutralWithoutOrigin(ev: UpdateEvent, rel: RelStore, vrps: set<Tries.VRP>)
    ensures ev.kind == Withdraw || ev.originAS == 0 ==> Classify(ev, rel, vrps).rpkiStatus == RPKINotFound
  {
    hide ValleyFree.PathVerdict, Rpki.Assessed;
  }
}
