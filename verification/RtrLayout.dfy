/** The PDUs of the RTR client byte by byte (internal/rtr/codec.go and pdu.go, sections 5.2 to 5.11 of
    RFC 8210), with every number written out. */
module RtrLayout {
  import opened Bgp
  import opened RtrCodec

  /** A 32-bit number, most significant byte first. */
  function Four(n: U32): (b: seq<Byte>)
    ensures |b| == 4
  {
    [n / 0x100_0000, n / 0x1_0000 % 0x100, n / 0x100 % 0x100, n % 0x100]
  }

  lemma FourIsPut32(n: U32)
    ensures Put32(n) == Four(n)
  {
    var high, low := n / 0x1_0000, n % 0x1_0000;
    TopDigit(n);
    LowDigits(n);
    assert Put16(high) == [high / 0x100, high % 0x100] && Put16(low) == [low / 0x100, low % 0x100];
  }

  lemma TopDigit(n: nat)
    ensures n / 0x1_0000 / 0x100 == n / 0x100_0000
  {
  }

  lemma LowDigits(n: nat)
    ensures n % 0x1_0000 / 0x100 == n / 0x100 % 0x100 && n % 0x1_0000 % 0x100 == n % 0x100
  {
  }

  lemma FourReads(n: U32)
    ensures Get32(Four(n)) == n
  {
    FourIsPut32(n);
    Integer32(n, Four(n));
  }

  /** Main result: what every PDU looks like on the wire. */
  lemma Layout(p: Pdu)
    requires Encodable(p)
    ensures p.ResetQuery? ==> Encode(p) == [1, 2, 0, 0, 0, 0, 0, 8]
    ensures p.SerialQuery? ==> Encode(p) == [1, 1, p.session / 0x100, p.session % 0x100, 0, 0, 0, 12] + Four(p.serial)
    ensures p.SerialNotify? ==> Encode(p) == [1, 0, p.session / 0x100, p.session % 0x100, 0, 0, 0, 12] + Four(p.serial)
    ensures p.CacheResponse? ==> Encode(p) == [1, 3, p.session / 0x100, p.session % 0x100, 0, 0, 0, 8]
    ensures p.CacheReset? ==> Encode(p) == [1, 8, 0, 0, 0, 0, 0, 8]
    ensures p.EndOfData? ==> Encode(p) == EndOfDataBytes(p.session, p.serial, p.refresh, p.retry, p.expire)
    ensures p.PrefixPdu? ==> Encode(p) == PrefixPduBytes(p.announce, p.prefix, p.maxLen, p.asn)
  {
    hide Put32, Four, PrefixPduBytes, EndOfDataBytes;
    match p {
      case PrefixPdu(announce, prefix, maxLen, asn) => PrefixPduLayout(announce, prefix, maxLen, asn);
      case EndOfData(session, serial, refresh, retry, expire) => EndOfDataLayout(session, serial, refresh, retry, expire);
      case SerialQuery(session, serial) => SmallLengths(); FourIsPut32(serial);
      case SerialNotify(session, serial) => SmallLengths(); FourIsPut32(serial);
      case CacheResponse(session) => SmallLengths();
      case ResetQuery => SmallLengths();
      case CacheReset => SmallLengths();
    }
  }

  function EndOfDataBytes(session: U16, serial: U32, refresh: U32, retry: U32, expire: U32): seq<Byte> {
    [1, 7, session / 0x100, session % 0x100, 0, 0, 0, 24] + Four(serial) + Four(refresh) + Four(retry) + Four(expire)
  }

  /** Flags, prefix length, maximum length and a reserved byte come before the address. */
  function PrefixPduBytes(announce: bool, prefix: Prefix, maxLen: Byte, asn: Asn): seq<Byte>
    requires prefix.IsValid()
  {
    [1, if prefix.v6 then 6 else 4, 0, 0, 0, 0, 0, if prefix.v6 then 32 else 20]
    + [if announce then 1 else 0, prefix.bits, maxLen, 0] + prefix.addr + Four(asn)
  }

  lemma EndOfDataLayout(session: U16, serial: U32, refresh: U32, retry: U32, expire: U32)
    ensures Encode(EndOfData(session, serial, refresh, retry, expire)) == EndOfDataBytes(session, serial, refresh, retry, expire)
  {
    hide Put32, Four;
    SmallLengths();
    FourIsPut32(serial);
    FourIsPut32(refresh);
    FourIsPut32(retry);
    FourIsPut32(expire);
  }

  lemma PrefixPduLayout(announce: bool, prefix: Prefix, maxLen: Byte, asn: Asn)
    requires prefix.IsValid()
    ensures EncodePrefix(announce, prefix, maxLen, asn) == PrefixPduBytes(announce, prefix, maxLen, asn)
  {
    hide Put32, Four;
    SmallLengths();
    FourIsPut32(asn);
    assert Put16(0) == [0, 0];
  }

  lemma SmallLengths()
    ensures Put32(8) == [0, 0, 0, 8] && Put32(12) == [0, 0, 0, 12] && Put32(20) == [0, 0, 0, 20]
    ensures Put32(24) == [0, 0, 0, 24] && Put32(32) == [0, 0, 0, 32]
  {
  }

  /** A frame as it comes from a cache: type, the 16-bit field, the length, the body. */
  function Frame(ptype: Byte, field: U16, body: seq<Byte>): seq<Byte>
    requires |body| + 8 < 0x1_0000_0000
  {
    [1, ptype, field / 0x100, field % 0x100] + Four(8 + |body|) + body
  }

  /** Reading a frame reads its body by its type, and nothing behind it. */
  lemma FrameReads(ptype: Byte, field: U16, body: seq<Byte>, tail: seq<Byte>)
    requires |body| + 8 <= 1_048_576
    ensures Decode(Frame(ptype, field, body) + tail) == (DecodeBody(Header(1, ptype, field, 8 + |body|), body), tail)
  {
    hide Decode, DecodeBody, Four, Put32;
    FourIsPut32(8 + |body|);
    Framed(ptype, field, body, tail);
    assert PutHeader(ptype, field, 8 + |body|) + body == Frame(ptype, field, body);
  }

  /** Main result: an error report, which the client never writes, is read as its code, the 16-bit field,
      and its text, whatever PDU it encloses. */
  lemma ErrorReportReads(code: U16, enclosed: seq<Byte>, text: seq<Byte>, tail: seq<Byte>)
    requires |enclosed| + |text| + 16 <= 1_048_576
    ensures Decode(Frame(10, code, Four(|enclosed|) + enclosed + Four(|text|) + text) + tail) == (Ok(ErrorReport(code, text)), tail)
  {
    hide Decode, Four, Get32;
    var body := Four(|enclosed|) + enclosed + Four(|text|) + text;
    FrameReads(10, code, body, tail);
    FourReads(|enclosed|);
    FourReads(|text|);
    var off := 4 + |enclosed|;
    assert body[..4] == Four(|enclosed|);
    assert body[off..off + 4] == Four(|text|);
    assert body[off + 4..off + 4 + |text|] == text;
  }

  /** Router keys are skipped whatever they hold, and types that do not exist are refused. */
  lemma OtherTypesRead(ptype: Byte, field: U16, body: seq<Byte>, tail: seq<Byte>)
    requires |body| + 8 <= 1_048_576
    ensures ptype == 9 ==> Decode(Frame(ptype, field, body) + tail) == (Ok(RouterKey), tail)
    ensures ptype == 5 || ptype > 10 ==> Decode(Frame(ptype, field, body) + tail) == (Err(UnsupportedType(ptype)), tail)
  {
    hide Decode;
    FrameReads(ptype, field, body, tail);
  }

  /** Bodies too short for their type are refused. */
  lemma ShortBodiesRefused(ptype: Byte, field: U16, body: seq<Byte>, tail: seq<Byte>)
    requires |body| + 8 <= 1_048_576
    ensures var r := Decode(Frame(ptype, field, body) + tail);
      && ((ptype == 0 || ptype == 1) && |body| < 4 ==> r == (Err(ShortBody(ptype)), tail))
      && (ptype == 7 && |body| < 16 ==> r == (Err(ShortBody(ptype)), tail))
      && ((ptype == 4 && |body| < 12) || (ptype == 6 && |body| < 24) ==> r == (Err(ShortPrefix(|body|)), tail))
  {
    hide Decode;
    FrameReads(ptype, field, body, tail);
  }

  /** A length below the header's own, or above a mebibyte, is refused after the header. */
  lemma LengthsRefused(ptype: Byte, field: U16, length: U32, tail: seq<Byte>)
    ensures length < 8 || length > 1_048_576 ==>
      Decode([1, ptype, field / 0x100, field % 0x100] + Four(length) + tail) == (Err(InvalidLength(length)), tail)
  {
    hide Put32, Get32, Four, Get16;
    FourIsPut32(length);
    var head := [1, ptype, field / 0x100, field % 0x100] + Four(length);
    HeaderRoundTrip(ptype, field, length);
    assert head == PutHeader(ptype, field, length);
    assert (head + tail)[..8] == head && (head + tail)[8..] == tail;
  }
}
