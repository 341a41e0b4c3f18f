/** The byte-level PDU codec of the RTR client (internal/rtr/codec.go and pdu.go, RFC 8210
    section 5). Integers are big-endian. */
module RtrCodec {
  import opened Bgp
  import opened Prefixes

  type U16 = n: int | 0 <= n < 0x1_0000
  type U32 = n: int | 0 <= n < 0x1_0000_0000

  const PROTOCOL_VERSION: Byte := 1
  const HEADER_LEN := 8
  const MAX_PDU_LEN := 0x10_0000
  const UNSUPPORTED_PROTOCOL_VERSION: U16 := 4

  datatype Pdu =
    | ResetQuery
    | SerialQuery(session: U16, serial: U32)
    | SerialNotify(session: U16, serial: U32)
    | CacheResponse(session: U16)
    | CacheReset
    | PrefixPdu(announce: bool, prefix: Prefix, maxLen: Byte, asn: Asn)
    | EndOfData(session: U16, serial: U32, refresh: U32, retry: U32, expire: U32)
    | RouterKey
    | ErrorReport(code: U16, text: seq<Byte>)

  datatype Header = Header(version: Byte, ptype: Byte, session: U16, length: U32)

  datatype ReadError =
    | Eof
    | UnexpectedEof
    | InvalidLength(length: U32)
    | ShortBody(ptype: Byte)
    | ShortPrefix(bodyLength: nat)
    | InvalidPrefixLength(plen: Byte)
    | UnsupportedType(ptype: Byte)

  datatype Outcome<+T> = Ok(value: T) | Err(error: ReadError)

  // PDU types (RFC 8210 section 5)
  const SERIAL_NOTIFY: Byte := 0
  const SERIAL_QUERY: Byte := 1
  const RESET_QUERY: Byte := 2
  const CACHE_RESPONSE: Byte := 3
  const IPV4_PREFIX: Byte := 4
  const IPV6_PREFIX: Byte := 6
  const END_OF_DATA: Byte := 7
  const CACHE_RESET: Byte := 8
  const ROUTER_KEY: Byte := 9
  const ERROR_REPORT: Byte := 10

  // ---- Big-endian integers ----

  function Put16(n: U16): (b: seq<Byte>)
    ensures |b| == 2
  {
    [n / 0x100, n % 0x100]
  }

  function Get16(b: seq<Byte>): U16
    requires |b| == 2
  {
    (b[0] as int) * 0x100 + b[1]
  }

  function Put32(n: U32): (b: seq<Byte>)
    ensures |b| == 4
  {
    Put16(n / 0x1_0000) + Put16(n % 0x1_0000)
  }

  function Get32(b: seq<Byte>): U32
    requires |b| == 4
  {
    Get16(b[..2]) * 0x1_0000 + Get16(b[2..])
  }

  lemma Integer16(n: U16, b: seq<Byte>)
    requires |b| == 2
    ensures Get16(Put16(n)) == n && Put16(Get16(b)) == b
  {
  }

  lemma Integer32(n: U32, b: seq<Byte>)
    requires |b| == 4
    ensures Get32(Put32(n)) == n && Put32(Get32(b)) == b
  {
    var p := Put32(n);
    assert p[..2] == Put16(n / 0x1_0000) && p[2..] == Put16(n % 0x1_0000);
    assert Get16(b[..2]) == Get32(b) / 0x1_0000 && Get16(b[2..]) == Get32(b) % 0x1_0000;
    Integer16(0, b[..2]);
    Integer16(0, b[2..]);
    assert b == b[..2] + b[2..];
  }

  // ---- Decoding, as functions of the bytes ----

  function ParseHeader(b: seq<Byte>): Header
    requires |b| == HEADER_LEN
  {
    Header(b[0], b[1], Get16(b[2..4]), Get32(b[4..8]))
  }

  function DecodePrefix(body: seq<Byte>, v6: bool): Outcome<Pdu> {
    var addrLen := if v6 then 16 else 4;
    if |body| < 4 + addrLen + 4 then Err(ShortPrefix(|body|))
    else
      var prefix := Prefix(v6, body[4..4 + addrLen], body[1]);
      if !prefix.IsValid() then Err(InvalidPrefixLength(body[1]))
      else Ok(PrefixPdu(body[0] % 2 == 1, Masked(prefix), body[2], Get32(body[4 + addrLen..8 + addrLen])))
  }

  /** The text of an error report, after the encapsulated PDU; empty if it does not fit the body. */
  function DecodeError(code: U16, body: seq<Byte>): Pdu {
    if |body| < 4 then ErrorReport(code, [])
    else
      var off := 4 + Get32(body[..4]);
      if off + 4 > |body| then ErrorReport(code, [])
      else
        var textLen := Get32(body[off..off + 4]);
        if off + 4 + textLen > |body| then ErrorReport(code, [])
        else ErrorReport(code, body[off + 4..off + 4 + textLen])
  }

  function DecodeBody(h: Header, body: seq<Byte>): Outcome<Pdu> {
    if h.ptype == RESET_QUERY then Ok(ResetQuery)
    else if h.ptype == SERIAL_QUERY then
      if |body| < 4 then Err(ShortBody(h.ptype)) else Ok(SerialQuery(h.session, Get32(body[..4])))
    else if h.ptype == SERIAL_NOTIFY then
      if |body| < 4 then Err(ShortBody(h.ptype)) else Ok(SerialNotify(h.session, Get32(body[..4])))
    else if h.ptype == CACHE_RESPONSE then Ok(CacheResponse(h.session))
    else if h.ptype == CACHE_RESET then Ok(CacheReset)
    else if h.ptype == IPV4_PREFIX then DecodePrefix(body, false)
    else if h.ptype == IPV6_PREFIX then DecodePrefix(body, true)
    else if h.ptype == END_OF_DATA then
      if |body| < 16 then Err(ShortBody(h.ptype))
      else Ok(EndOfData(h.session, Get32(body[..4]), Get32(body[4..8]), Get32(body[8..12]), Get32(body[12..16])))
    else if h.ptype == ROUTER_KEY then Ok(RouterKey)
    else if h.ptype == ERROR_REPORT then Ok(DecodeError(h.session, body))
    else Err(UnsupportedType(h.ptype))
  }

  /** What reading n bytes yields and leaves. */
  function Take(stream: seq<Byte>, n: nat): (Outcome<seq<Byte>>, seq<Byte>) {
    if |stream| >= n then (Ok(stream[..n]), stream[n..])
    else (Err(if |stream| == 0 then Eof else UnexpectedEof), [])
  }

  /** What reading one PDU yields and leaves. */
  function Decode(stream: seq<Byte>): (r: (Outcome<Pdu>, seq<Byte>))
    ensures r.0.Ok? ==> |r.1| + HEADER_LEN <= |stream|
  {
    var (head, afterHead) := Take(stream, HEADER_LEN);
    if head.Err? then (Err(head.error), afterHead)
    else
      var h := ParseHeader(head.value);
      if h.length < HEADER_LEN || h.length > MAX_PDU_LEN then (Err(InvalidLength(h.length)), afterHead)
      else
        var (body, afterBody) := Take(afterHead, h.length - HEADER_LEN);
        if body.Err? then (Err(body.error), afterBody)
        else (DecodeBody(h, body.value), afterBody)
  }

  /** Reading PDUs until one fails: the PDUs, the failure and what is left unread. */
  function DecodeAll(stream: seq<Byte>): (seq<Pdu>, ReadError, seq<Byte>)
    decreases |stream|
  {
    var (r, rest) := Decode(stream);
    if r.Err? then ([], r.error, rest)
    else
      var (more, err, left) := DecodeAll(rest);
      ([r.value] + more, err, left)
  }

  // ---- The reading methods ----

  class Reader {
    var rest: seq<Byte>

    constructor (bytes: seq<Byte>)
      ensures rest == bytes
    {
      rest := bytes;
    }

    /** io.ReadFull: all n bytes or an error. */
    method ReadFull(n: nat) returns (b: Outcome<seq<Byte>>)
      modifies this
      ensures (b, rest) == Take(old(rest), n)
    {
      if |rest| >= n {
        b, rest := Ok(rest[..n]), rest[n..];
      } else {
        b, rest := Err(if |rest| == 0 then Eof else UnexpectedEof), [];
      }
    }
  }

  method ReadHeader(r: Reader) returns (h: Outcome<Header>)
    modifies r
    ensures var (head, rest) := Take(old(r.rest), HEADER_LEN);
      && r.rest == rest
      && h == if head.Err? then Err(head.error)
              else var p := ParseHeader(head.value);
                if p.length < HEADER_LEN || p.length > MAX_PDU_LEN then Err(InvalidLength(p.length)) else Ok(p)
  {
    var b := r.ReadFull(HEADER_LEN);
    if b.Err? {
      return Err(b.error);
    }
    var p := ParseHeader(b.value);
    if p.length < HEADER_LEN || p.length > MAX_PDU_LEN {
      return Err(InvalidLength(p.length));
    }
    return Ok(p);
  }

  method ReadPDU(r: Reader) returns (pdu: Outcome<Pdu>)
    modifies r
    ensures (pdu, r.rest) == Decode(old(r.rest))
  {
    var h := ReadHeader(r);
    if h.Err? {
      return Err(h.error);
    }
    var body := r.ReadFull(h.value.length - HEADER_LEN);
    if body.Err? {
      return Err(body.error);
    }
    pdu := DecodeBody(h.value, body.value);
  }

  /** Reads the connection until a read fails. */
  method ReadStream(r: Reader) returns (pdus: seq<Pdu>, err: ReadError)
    modifies r
    ensures (pdus, err, r.rest) == DecodeAll(old(r.rest))
  {
    pdus := [];
    ghost var start := r.rest;
    while true
      invariant var (all, e, left) := DecodeAll(start);
        var (more, e', left') := DecodeAll(r.rest);
        all == pdus + more && e == e' && left == left'
      decreases |r.rest|
    {
      var pdu := ReadPDU(r);
      if pdu.Err? {
        assert pdus + [] == pdus;
        return pdus, pdu.error;
      }
      pdus := pdus + [pdu.value];
    }
  }

  // ---- Encoding ----

  function PutHeader(ptype: Byte, session: U16, length: U32): (b: seq<Byte>)
    ensures |b| == HEADER_LEN
  {
    [PROTOCOL_VERSION, ptype] + Put16(session) + Put32(length)
  }

  function EncodePrefix(announce: bool, prefix: Prefix, maxLen: Byte, asn: Asn): seq<Byte>
    requires prefix.IsValid()
  {
    var addrLen := if prefix.v6 then 16 else 4;
    PutHeader(if prefix.v6 then IPV6_PREFIX else IPV4_PREFIX, 0, HEADER_LEN + 4 + addrLen + 4)
    + ([if announce then 1 else 0, prefix.bits, maxLen, 0] + prefix.addr + Put32(asn))
  }

  /** The PDUs the package can write. */
  predicate Encodable(p: Pdu) {
    match p
    case PrefixPdu(_, prefix, _, _) => prefix.IsValid()
    case RouterKey => false
    case ErrorReport(_, _) => false
    case _ => true
  }

  function Encode(p: Pdu): seq<Byte>
    requires Encodable(p)
  {
    match p
    case ResetQuery => PutHeader(RESET_QUERY, 0, HEADER_LEN)
    case SerialQuery(session, serial) => PutHeader(SERIAL_QUERY, session, HEADER_LEN + 4) + Put32(serial)
    case SerialNotify(session, serial) => PutHeader(SERIAL_NOTIFY, session, HEADER_LEN + 4) + Put32(serial)
    case CacheResponse(session) => PutHeader(CACHE_RESPONSE, session, HEADER_LEN)
    case CacheReset => PutHeader(CACHE_RESET, 0, HEADER_LEN)
    case PrefixPdu(announce, prefix, maxLen, asn) => EncodePrefix(announce, prefix, maxLen, asn)
    case EndOfData(session, serial, refresh, retry, expire) =>
      PutHeader(END_OF_DATA, session, HEADER_LEN + 16) + (Put32(serial) + Put32(refresh) + Put32(retry) + Put32(expire))
  }

  function EncodeAll(ps: seq<Pdu>): seq<Byte>
    requires forall p :: p in ps ==> Encodable(p)
  {
    if |ps| == 0 then [] else Encode(ps[0]) + EncodeAll(ps[1..])
  }

  // ---- Round trips ----

  /** What the reader makes of a written PDU: the same, with its prefix masked. */
  function Received(p: Pdu): Pdu {
    match p
    case PrefixPdu(announce, prefix, maxLen, asn) => PrefixPdu(announce, Masked(prefix), maxLen, asn)
    case _ => p
  }

  lemma HeaderRoundTrip(ptype: Byte, session: U16, length: U32)
    ensures ParseHeader(PutHeader(ptype, session, length)) == Header(PROTOCOL_VERSION, ptype, session, length)
  {
    var b := PutHeader(ptype, session, length);
    assert b[2..4] == Put16(session) && b[4..8] == Put32(length);
    Integer16(session, Put16(session));
    Integer32(length, Put32(length));
  }

  /** A written header and body are read back whole, whatever follows. */
  lemma FrameRoundTrip(ptype: Byte, session: U16, body: seq<Byte>, tail: seq<Byte>)
    requires HEADER_LEN + |body| <= MAX_PDU_LEN
    ensures var head := PutHeader(ptype, session, HEADER_LEN + |body|);
      Decode(head + body + tail) == (DecodeBody(ParseHeader(head), body), tail)
  {
    var head := PutHeader(ptype, session, HEADER_LEN + |body|);
    var stream := head + body + tail;
    HeaderRoundTrip(ptype, session, HEADER_LEN + |body|);
    assert stream[..HEADER_LEN] == head;
    var after := stream[HEADER_LEN..];
    assert after == body + tail;
    assert after[..|body|] == body && after[|body|..] == tail;
  }

  lemma PrefixBodyRoundTrip(announce: bool, prefix: Prefix, maxLen: Byte, asn: Asn)
    requires prefix.IsValid()
    ensures var body := [if announce then 1 else 0, prefix.bits, maxLen, 0] + prefix.addr + Put32(asn);
      DecodePrefix(body, prefix.v6) == Ok(PrefixPdu(announce, Masked(prefix), maxLen, asn))
  {
    var addrLen := if prefix.v6 then 16 else 4;
    var body := [if announce then 1 else 0, prefix.bits, maxLen, 0] + prefix.addr + Put32(asn);
    assert body[4..4 + addrLen] == prefix.addr;
    assert body[4 + addrLen..8 + addrLen] == Put32(asn);
    Integer32(asn, Put32(asn));
  }

  lemma FourIntegers(a: U32, b: U32, c: U32, d: U32)
    ensures var body := Put32(a) + Put32(b) + Put32(c) + Put32(d);
      |body| == 16 && Get32(body[..4]) == a && Get32(body[4..8]) == b && Get32(body[8..12]) == c && Get32(body[12..16]) == d
  {
    hide Put32, Get32;
    var body := Put32(a) + Put32(b) + Put32(c) + Put32(d);
    assert body[..4] == Put32(a) && body[4..8] == Put32(b) && body[8..12] == Put32(c) && body[12..16] == Put32(d);
    Integer32(a, Put32(a));
    Integer32(b, Put32(b));
    Integer32(c, Put32(c));
    Integer32(d, Put32(d));
  }

  /** A written PDU is read back, with its prefix masked, and exactly its bytes are consumed. */
  lemma RoundTrip(p: Pdu, tail: seq<Byte>)
    requires Encodable(p)
    ensures Decode(Encode(p) + tail) == (Ok(Received(p)), tail)
  {
    hide Decode, PutHeader, ParseHeader, Put32, Get32, Put16, Get16, DecodePrefix, Masked;
    match p {
      case ResetQuery =>
        Framed(RESET_QUERY, 0, [], tail);
      case SerialQuery(session, serial) =>
        Integer32(serial, Put32(serial));
        Framed(SERIAL_QUERY, session, Put32(serial), tail);
      case SerialNotify(session, serial) =>
        Integer32(serial, Put32(serial));
        Framed(SERIAL_NOTIFY, session, Put32(serial), tail);
      case CacheResponse(session) =>
        Framed(CACHE_RESPONSE, session, [], tail);
      case CacheReset =>
        Framed(CACHE_RESET, 0, [], tail);
      case PrefixPdu(announce, prefix, maxLen, asn) =>
        var body := [if announce then 1 else 0, prefix.bits, maxLen, 0] + prefix.addr + Put32(asn);
        PrefixBodyRoundTrip(announce, prefix, maxLen, asn);
        Framed(if prefix.v6 then IPV6_PREFIX else IPV4_PREFIX, 0, body, tail);
      case EndOfData(session, serial, refresh, retry, expire) =>
        FourIntegers(serial, refresh, retry, expire);
        Framed(END_OF_DATA, session, Put32(serial) + Put32(refresh) + Put32(retry) + Put32(expire), tail);
    }
  }

  lemma Framed(ptype: Byte, session: U16, body: seq<Byte>, tail: seq<Byte>)
    requires HEADER_LEN + |body| <= MAX_PDU_LEN
    ensures Decode(PutHeader(ptype, session, HEADER_LEN + |body|) + body + tail)
      == (DecodeBody(Header(PROTOCOL_VERSION, ptype, session, HEADER_LEN + |body|), body), tail)
    ensures |body| == 0 ==> PutHeader(ptype, session, HEADER_LEN) + body == PutHeader(ptype, session, HEADER_LEN)
    ensures |body| == 4 ==> body[..4] == body
  {
    hide Decode, PutHeader, ParseHeader;
    FrameRoundTrip(ptype, session, body, tail);
    HeaderRoundTrip(ptype, session, HEADER_LEN + |body|);
  }

  function ReceivedAll(ps: seq<Pdu>): seq<Pdu> {
    seq(|ps|, i requires 0 <= i < |ps| => Received(ps[i]))
  }

  /** Main result: reading the concatenation of any list of written PDUs returns those PDUs in
      order, prefixes masked, and goes on exactly after their bytes. */
  lemma {:induction false} StreamRoundTrip(ps: seq<Pdu>, tail: seq<Byte>)
    requires forall p :: p in ps ==> Encodable(p)
    ensures var (more, err, left) := DecodeAll(tail);
      DecodeAll(EncodeAll(ps) + tail) == (ReceivedAll(ps) + more, err, left)
  {
    hide Decode, Encode, Received, Encodable;
    if |ps| == 0 {
      assert EncodeAll(ps) + tail == tail;
      assert ReceivedAll(ps) + DecodeAll(tail).0 == DecodeAll(tail).0;
    } else {
      var rest := EncodeAll(ps[1..]) + tail;
      assert EncodeAll(ps) + tail == Encode(ps[0]) + rest;
      RoundTrip(ps[0], rest);
      StreamRoundTrip(ps[1..], tail);
      var more := DecodeAll(tail).0;
      assert ReceivedAll(ps) + more == [Received(ps[0])] + (ReceivedAll(ps[1..]) + more);
    }
  }

  /** The stream of the written PDUs alone ends cleanly after the last of them. */
  lemma WholeStreamRoundTrip(ps: seq<Pdu>)
    requires forall p :: p in ps ==> Encodable(p)
    ensures DecodeAll(EncodeAll(ps)) == (ReceivedAll(ps), Eof, [])
  {
    StreamRoundTrip(ps, []);
    assert EncodeAll(ps) + [] == EncodeAll(ps);
    assert DecodeAll([]) == ([], Eof, []);
    assert ReceivedAll(ps) + [] == ReceivedAll(ps);
  }

  /** A prefix PDU in its only canonical form: version 1, zero where the format says zero, no
      flag but announce, no bytes to spare, and a masked address. */
  predicate CanonicalPrefixBytes(b: seq<Byte>) {
    && |b| >= HEADER_LEN
    && (b[1] == IPV4_PREFIX || b[1] == IPV6_PREFIX)
    && var addrLen := if b[1] == IPV6_PREFIX then 16 else 4;
    && |b| == HEADER_LEN + 4 + addrLen + 4
    && b[0] == PROTOCOL_VERSION && b[2] == 0 && b[3] == 0
    && b[8] <= 1 && b[11] == 0
    && b[12..12 + addrLen] == MaskAddr(b[12..12 + addrLen], b[9])
  }

  /** Main result: writing a prefix PDU back restores the bytes it was read from exactly when
      those bytes are in the canonical form. */
  lemma ReencodeRestoresCanonical(b: seq<Byte>, p: Pdu)
    requires Decode(b) == (Ok(p), [])
    requires p.PrefixPdu?
    ensures Encodable(p)
    ensures Encode(p) == b <==> CanonicalPrefixBytes(b)
  {
    hide Decode, Encode, EncodePrefix, DecodeBody, Put32, Get32, Put16, Get16;
    PrefixBytes(b, p);
    var n := if b[1] == IPV6_PREFIX then 28 else 16;
    PrefixLayout(p);
    var e := Encode(p);
    Integer32(p.asn, b[n..n + 4]);
    Integer32(|b|, b[4..8]);
    if |b| == n + 4 {
      FivePieces(b, n);
      FivePieces(e, n);
      assert b[n..] == b[n..n + 4];
      if CanonicalPrefixBytes(b) {
        assert e[..4] == b[..4];
        assert e[8..12] == b[8..12];
      }
    }
    if e == b {
      HeadBytes(b, e);
    }
  }

  lemma HeadBytes(b: seq<Byte>, e: seq<Byte>)
    requires e == b && |b| >= 12
    ensures b[0] == e[..4][0] && b[2] == e[..4][2] && b[3] == e[..4][3]
    ensures b[8] == e[8..12][0] && b[11] == e[8..12][3]
  {
  }

  lemma FivePieces(b: seq<Byte>, n: nat)
    requires 12 <= n <= |b|
    ensures b == b[..4] + b[4..8] + b[8..12] + b[12..n] + b[n..]
  {
    assert b[..12] == b[..4] + b[4..8] + b[8..12];
    assert b[..n] == b[..12] + b[12..n];
  }

  /** Where the fields of a prefix PDU come from. */
  lemma PrefixBytes(b: seq<Byte>, p: Pdu)
    requires Decode(b) == (Ok(p), [])
    requires p.PrefixPdu?
    ensures |b| >= HEADER_LEN && Get32(b[4..8]) == |b|
    ensures b[1] == IPV4_PREFIX || b[1] == IPV6_PREFIX
    ensures var v6 := b[1] == IPV6_PREFIX;
      var addrLen := if v6 then 16 else 4;
      && |b| >= HEADER_LEN + 8 + addrLen
      && Prefix(v6, b[12..12 + addrLen], b[9]).IsValid()
      && p == PrefixPdu(b[8] % 2 == 1, Masked(Prefix(v6, b[12..12 + addrLen], b[9])), b[10],
                        Get32(b[12 + addrLen..16 + addrLen]))
  {
    hide Masked, Get32, Get16;
    var body := b[8..];
    var h := ParseHeader(b[..8]);
    assert b[..8][2..4] == b[2..4] && b[..8][4..8] == b[4..8];
    assert body[..|body|] == body;
    var addrLen := if b[1] == IPV6_PREFIX then 16 else 4;
    if |body| >= 8 + addrLen {
      assert body[4..4 + addrLen] == b[12..12 + addrLen];
      assert body[4 + addrLen..8 + addrLen] == b[12 + addrLen..16 + addrLen];
    }
  }

  /** The bytes of a written prefix PDU, field by field. */
  lemma PrefixLayout(p: Pdu)
    requires p.PrefixPdu? && p.prefix.IsValid()
    ensures var e := Encode(p);
      var addrLen := if p.prefix.v6 then 16 else 4;
      && |e| == HEADER_LEN + 8 + addrLen
      && e[..4] == [PROTOCOL_VERSION, if p.prefix.v6 then IPV6_PREFIX else IPV4_PREFIX, 0, 0]
      && e[4..8] == Put32(|e|)
      && e[8..12] == [if p.announce then 1 else 0, p.prefix.bits, p.maxLen, 0]
      && e[12..12 + addrLen] == p.prefix.addr
      && e[12 + addrLen..] == Put32(p.asn)
  {
    hide Put32;
  }
}
