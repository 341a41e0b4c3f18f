/** The domain types every stage of the pipeline speaks in: relationships, verdicts,
    prefixes and events. Addresses are byte strings in network order, as on the wire. */
module Bgp {

  type Byte = b: int | 0 <= b < 0x100
  type Asn = a: int | 0 <= a < 0x1_0000_0000
  type EventID = nat

  datatype Option<+T> = None | Some(value: T)

  datatype UpdateKind = Announce | Withdraw

  /** The relationship of AS a toward AS b: RelCustomer means that b is a's customer. */
  datatype RelStatus = RelUnknown | RelCustomer | RelProvider | RelPeer | RelSibling {

    /** The same relationship seen from b toward a. */
    function Invert(): RelStatus {
      match this
      case RelCustomer => RelProvider
      case RelProvider => RelCustomer
      case _ => this
    }
  }

  datatype VFStatus = VFValid | VFLeak | VFHijack | VFUnknown

  datatype RPKIStatus = RPKINotFound | RPKIValid | RPKIInvalid

  /** The explanation attached to a verdict, as a value instead of English text. */
  datatype Reason =
    | NoReason
    | LeakedToProvider
    | LeakedToPeer
    | UnauthorizedOrigin(origin: Asn, prefix: Prefix, alsoLeaks: Reason)

  /** An address prefix. `bits` may be out of range: such a prefix is not valid. */
  datatype Prefix = Prefix(v6: bool, addr: seq<Byte>, bits: int) {

    /** The address width of the family, in bits. */
    function Width(): nat {
      if v6 then 128 else 32
    }

    /** The address is of its family's size; the length may exceed it. */
    predicate Sized() {
      8 * |addr| == Width() && 0 <= bits
    }

    predicate IsValid() {
      Sized() && bits <= Width()
    }
  }

  /** One adjacency of an AS_PATH in wire order: `from` is nearer the collector. */
  datatype PathHop = PathHop(from: Asn, to: Asn, rel: RelStatus, isOffender: bool)

  datatype UpdateEvent = UpdateEvent(
    id: EventID,
    seqNo: nat,
    timestamp: int,
    kind: UpdateKind,
    prefix: Prefix,
    peerAS: Asn,
    asPath: seq<Asn>,
    hasASSet: bool,
    originAS: Asn)

  datatype ClassifiedEvent = ClassifiedEvent(
    event: UpdateEvent,
    vfStatus: VFStatus,
    rpkiStatus: RPKIStatus,
    hops: seq<PathHop>,
    offenderAS: Asn,
    reason: Reason)

  /** The last element of a nonempty sequence. */
  function Last<T>(s: seq<T>): T
    requires |s| > 0
  {
    s[|s| - 1]
  }

  predicate NoRepeats<T(==)>(s: seq<T>) {
    forall i, j :: 0 <= i < j < |s| ==> s[i] != s[j]
  }
}
