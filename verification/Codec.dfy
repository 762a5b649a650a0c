/** The address format of RFC 1928, section 5: the printer of `send_final_response`, an
    independent decoder, and how the parsers of the source compare with it. */
module Codec {
  import opened Bytes
  import opened ReqAddrs

  const SOCKS5_PROTOCOL: byte := 5
  const SOCKS5_NO_AUTH: byte := 0
  const SOCKS5_NO_ACCEPTABLE_METHOD: byte := 0xFF
  const SOCKS5_CMD_CONNECT: byte := 1

  /** `Socks5AddrType` */
  const ATYP_IPV4: byte := 1
  const ATYP_DOMAIN: byte := 3
  const ATYP_IPV6: byte := 4

  /** `Socks5Error` */
  const SUCCESS: byte := 0
  const GENERAL_PROXY_FAILURE: byte := 1
  const NETWORK_UNREACHABLE: byte := 3
  const HOST_UNREACHABLE: byte := 4
  const CONNECTION_REFUSED: byte := 5
  const TTL_EXPIRED: byte := 6
  const COMMAND_NOT_SUPPORTED: byte := 7
  const ADDRESS_TYPE_NOT_SUPPORTED: byte := 8

  /** The one-byte length of RFC 1928 can describe the name. */
  predicate Encodable(a: ReqAddr) { a.Domain? ==> |a.name| <= 255 }

  /** The reply fits the 261-byte buffer of `send_final_response`. */
  predicate Printable(a: ReqAddr) { a.Domain? ==> |a.name| <= 254 }

  /** What the loop of `send_final_response` leaves in the reply: each segment, high byte first. */
  function SegmentBytes(s: Segments): (r: seq<byte>)
    ensures |r| == 16
  {
    [High(s[0]), Low(s[0]), High(s[1]), Low(s[1]), High(s[2]), Low(s[2]), High(s[3]), Low(s[3]),
     High(s[4]), Low(s[4]), High(s[5]), Low(s[5]), High(s[6]), Low(s[6]), High(s[7]), Low(s[7])]
  }

  function SegmentsOf(b: seq<byte>): (r: Segments)
    requires |b| == 16
  {
    [Word(b[0], b[1]), Word(b[2], b[3]), Word(b[4], b[5]), Word(b[6], b[7]),
     Word(b[8], b[9]), Word(b[10], b[11]), Word(b[12], b[13]), Word(b[14], b[15])]
  }

  lemma WordRoundTrip(w: u16)
    ensures Word(High(w), Low(w)) == w
  {
  }

  lemma WordParts(hi: byte, lo: byte)
    ensures High(Word(hi, lo)) == hi && Low(Word(hi, lo)) == lo
  {
  }

  /** Splitting the eight segments into bytes loses nothing ... */
  lemma SegmentsRoundTrip(segments: Segments)
    ensures SegmentsOf(SegmentBytes(segments)) == segments
  {
    hide High, Low, Word;
    forall k | 0 <= k < 8 ensures Word(High(segments[k]), Low(segments[k])) == segments[k] {
      WordRoundTrip(segments[k]);
    }
  }

  /** ... and neither does joining sixteen bytes into segments. */
  lemma BytesRoundTrip(bytes: seq<byte>)
    requires |bytes| == 16
    ensures SegmentBytes(SegmentsOf(bytes)) == bytes
  {
    hide High, Low, Word;
    forall i, j | 0 <= i < 16 && 0 <= j < 16
      ensures High(Word(bytes[i], bytes[j])) == bytes[i] && Low(Word(bytes[i], bytes[j])) == bytes[j]
    {
      WordParts(bytes[i], bytes[j]);
    }
  }

  function PortBytes(port: u16): seq<byte> { [High(port), Low(port)] }

  /** ATYP, address and port of RFC 1928. */
  function Encode(a: ReqAddr): seq<byte>
    requires Encodable(a)
  {
    match a
    case IP(V4(octets, port)) => [ATYP_IPV4] + octets + PortBytes(port)
    case IP(V6(segments, port)) => [ATYP_IPV6] + SegmentBytes(segments) + PortBytes(port)
    case Domain(name, port) => [ATYP_DOMAIN, |name|] + name + PortBytes(port)
  }

  /** A reply message of RFC 1928, section 6. */
  function Reply(code: byte, a: ReqAddr): seq<byte>
    requires Encodable(a)
  {
    [SOCKS5_PROTOCOL, code, 0] + Encode(a)
  }

  datatype Decoded = Decoded(addr: ReqAddr, rest: seq<byte>) | Malformed

  /** Reference decoder of RFC 1928, section 5: the address at the front of bs, and what follows it. */
  function Decode(bs: seq<byte>): Decoded {
    if |bs| < 2 then Malformed
    else if bs[0] == ATYP_IPV4 then
      if |bs| < 7 then Malformed else Decoded(IP(V4(bs[1..5], Word(bs[5], bs[6]))), bs[7..])
    else if bs[0] == ATYP_IPV6 then
      if |bs| < 19 then Malformed
      else Decoded(IP(V6(SegmentsOf(bs[1..17]), Word(bs[17], bs[18]))), bs[19..])
    else if bs[0] == ATYP_DOMAIN then
      var n: nat := bs[1];
      if |bs| < n + 4 || !ValidUtf8(bs[2..n + 2]) then Malformed
      else Decoded(Domain(bs[2..n + 2], Word(bs[n + 2], bs[n + 3])), bs[n + 4..])
    else Malformed
  }

  lemma DecodeEncodeV4(octets: Octets, port: u16, suffix: seq<byte>)
    ensures Decode(Encode(IP(V4(octets, port))) + suffix) == Decoded(IP(V4(octets, port)), suffix)
  {
    var bs := Encode(IP(V4(octets, port))) + suffix;
    assert bs[1..5] == octets && bs[7..] == suffix;
  }

  lemma DecodeEncodeV6(segments: Segments, port: u16, suffix: seq<byte>)
    ensures Decode(Encode(IP(V6(segments, port))) + suffix) == Decoded(IP(V6(segments, port)), suffix)
  {
    var bs := Encode(IP(V6(segments, port))) + suffix;
    assert bs[1..17] == SegmentBytes(segments) && bs[19..] == suffix;
    SegmentsRoundTrip(segments);
  }

  lemma DecodeEncodeDomain(name: Utf8, port: u16, suffix: seq<byte>)
    requires |name| <= 255
    ensures Decode(Encode(Domain(name, port)) + suffix) == Decoded(Domain(name, port), suffix)
  {
    var bs := Encode(Domain(name, port)) + suffix;
    var n: nat := bs[1];
    assert bs[2..n + 2] == name && bs[n + 4..] == suffix;
  }

  /** Decoding undoes printing, whatever follows. */
  lemma DecodeEncode(a: ReqAddr, suffix: seq<byte>)
    requires Encodable(a)
    ensures Decode(Encode(a) + suffix) == Decoded(a, suffix)
  {
    match a
    case IP(V4(octets, port)) => DecodeEncodeV4(octets, port, suffix);
    case IP(V6(segments, port)) => DecodeEncodeV6(segments, port, suffix);
    case Domain(name, port) => DecodeEncodeDomain(name, port, suffix);
  }

  lemma EncodeDecodeV4(bs: seq<byte>)
    requires |bs| >= 7 && bs[0] == ATYP_IPV4
    ensures Encode(IP(V4(bs[1..5], Word(bs[5], bs[6])))) + bs[7..] == bs
  {
    WordParts(bs[5], bs[6]);
    assert bs == [bs[0]] + bs[1..5] + [bs[5], bs[6]] + bs[7..];
  }

  lemma EncodeDecodeV6(bs: seq<byte>)
    requires |bs| >= 19 && bs[0] == ATYP_IPV6
    ensures Encode(IP(V6(SegmentsOf(bs[1..17]), Word(bs[17], bs[18])))) + bs[19..] == bs
  {
    BytesRoundTrip(bs[1..17]);
    WordParts(bs[17], bs[18]);
    assert bs == [bs[0]] + bs[1..17] + [bs[17], bs[18]] + bs[19..];
  }

  lemma EncodeDecodeDomain(bs: seq<byte>, n: nat)
    requires |bs| >= 2 && bs[0] == ATYP_DOMAIN && n == bs[1] && |bs| >= n + 4 && ValidUtf8(bs[2..n + 2])
    ensures Encode(Domain(bs[2..n + 2], Word(bs[n + 2], bs[n + 3]))) + bs[n + 4..] == bs
  {
    hide ValidUtf8;
    WordParts(bs[n + 2], bs[n + 3]);
    assert bs == [bs[0], bs[1]] + bs[2..n + 2] + [bs[n + 2], bs[n + 3]] + bs[n + 4..];
  }

  /** Printing undoes decoding: the format has exactly one spelling of each address. */
  lemma EncodeDecode(bs: seq<byte>)
    requires Decode(bs).Decoded?
    ensures Encodable(Decode(bs).addr)
    ensures Encode(Decode(bs).addr) + Decode(bs).rest == bs
  {
    hide Encode, ValidUtf8;
    if bs[0] == ATYP_IPV4 {
      EncodeDecodeV4(bs);
    } else if bs[0] == ATYP_IPV6 {
      EncodeDecodeV6(bs);
    } else {
      EncodeDecodeDomain(bs, bs[1]);
    }
  }

  /** Encodings are injective and prefix-free: a stream determines both the address and where it ends. */
  lemma EncodingPrefixFree(a: ReqAddr, b: ReqAddr, s: seq<byte>, t: seq<byte>)
    requires Encodable(a) && Encodable(b)
    requires Encode(a) + s == Encode(b) + t
    ensures a == b && s == t
  {
    DecodeEncode(a, s);
    DecodeEncode(b, t);
  }

  // -- The parsers of the source ---------------------------------------------------------------

  datatype AddressRead = AddressRead(result: Result<ReqAddr>, rest: seq<byte>) | Incomplete | UnknownType

  /** What `get_request` makes of the bytes from ATYP on (src/socks5/incoming.rs:153-173), logging aside. */
  function ReadAddress(bs: seq<byte>): AddressRead {
    if |bs| < 2 then Incomplete
    else if bs[0] == ATYP_IPV4 then
      if |bs| < 7 then Incomplete else AddressRead(ParseAddressV4(bs[1..7]), bs[7..])
    else if bs[0] == ATYP_IPV6 then
      if |bs| < 19 then Incomplete else AddressRead(ParseAddressV6(bs[1..19]), bs[19..])
    else if bs[0] == ATYP_DOMAIN then
      var n: nat := bs[1];
      if n + 2 > 255 then AddressRead(Panicked, bs[2..])
      else if |bs| < n + 4 then Incomplete
      else AddressRead(ParseDomain(n, bs[2..n + 4]), bs[n + 4..])
    else UnknownType
  }

  /** The address the source reads when the client wrote a: an IPv4 port is assembled from the
      last octet and the high port byte. */
  function AsRead(a: ReqAddr): ReqAddr {
    match a
    case IP(V4(octets, port)) => IP(V4(octets, Word(octets[3], High(port))))
    case _ => a
  }

  /** The names the request buffer of 255 bytes can hold together with the port. */
  predicate Readable(a: ReqAddr) { a.Domain? ==> |a.name| <= 253 }

  /** The addresses the source reads correctly: not IPv4, or both port bytes repeat the last octet. */
  predicate Faithful(a: ReqAddr) {
    match a
    case IP(V4(octets, port)) => High(port) == octets[3] && Low(port) == octets[3]
    case _ => true
  }

  lemma AsReadIsIdentityIffFaithful(a: ReqAddr)
    ensures AsRead(a) == a <==> Faithful(a)
  {
    WordRoundTrip(a.Port());
  }

  lemma ParseV6IsSegmentsOf(bytes: seq<byte>)
    requires |bytes| == 18
    ensures ParseAddressV6(bytes) == Ok(IP(V6(SegmentsOf(bytes[..16]), Word(bytes[16], bytes[17]))))
  {
    assert ParseAddressV6(bytes).value.addr.segments == SegmentsOf(bytes[..16]);
  }

  /** How the source's reader compares with the reference decoder on any bytes. */
  lemma ReadVersusDecode(bs: seq<byte>)
    requires |bs| >= 2
    ensures Decode(bs).Decoded? && Readable(Decode(bs).addr) ==>
              ReadAddress(bs) == AddressRead(Ok(AsRead(Decode(bs).addr)), Decode(bs).rest)
    ensures Decode(bs).Decoded? && !Readable(Decode(bs).addr) ==>
              ReadAddress(bs).AddressRead? && ReadAddress(bs).result == Panicked
    ensures ReadAddress(bs).AddressRead? && ReadAddress(bs).result.Ok? ==>
              Decode(bs).Decoded? && Readable(Decode(bs).addr)
  {
    if bs[0] == ATYP_IPV4 && |bs| >= 7 {
      assert bs[1..7][..4] == bs[1..5];
      if Decode(bs).Decoded? {
        var port := Decode(bs).addr.addr.port;
        assert High(port) == bs[5];
      }
    } else if bs[0] == ATYP_IPV6 && |bs| >= 19 {
      ParseV6IsSegmentsOf(bs[1..19]);
      assert bs[1..19][..16] == bs[1..17];
    } else if bs[0] == ATYP_DOMAIN {
      var n: nat := bs[1];
      if |bs| >= n + 4 {
        assert bs[2..n + 4][..n] == bs[2..n + 2];
      }
    }
  }

  /** What the source reads off a well-formed address, for every address and every suffix. */
  lemma ReadEncoded(a: ReqAddr, suffix: seq<byte>)
    requires Encodable(a)
    ensures Readable(a) ==> ReadAddress(Encode(a) + suffix) == AddressRead(Ok(AsRead(a)), suffix)
    ensures !Readable(a) ==>
              ReadAddress(Encode(a) + suffix).AddressRead? && ReadAddress(Encode(a) + suffix).result == Panicked
  {
    DecodeEncode(a, suffix);
    ReadVersusDecode(Encode(a) + suffix);
  }

  /** The source's parser inverts the source's printer exactly on the faithful, readable addresses. */
  lemma ReadRoundTripIff(a: ReqAddr, suffix: seq<byte>)
    requires Encodable(a)
    ensures ReadAddress(Encode(a) + suffix) == AddressRead(Ok(a), suffix) <==> Readable(a) && Faithful(a)
  {
    ReadEncoded(a, suffix);
    AsReadIsIdentityIffFaithful(a);
  }

  /** Every address the source accepts is well formed, and is the reference decoding seen through `AsRead`. */
  lemma ReadAgreesWithDecode(bs: seq<byte>)
    requires ReadAddress(bs).AddressRead? && ReadAddress(bs).result.Ok?
    ensures Decode(bs).Decoded? && Readable(Decode(bs).addr) && Encodable(Decode(bs).addr)
    ensures ReadAddress(bs) == AddressRead(Ok(AsRead(Decode(bs).addr)), Decode(bs).rest)
  {
    ReadVersusDecode(bs);
    EncodeDecode(bs);
  }

  /** Re-printing what the source accepted gives back the bytes it read, except for an IPv4 request
      whose port bytes do not both repeat the last octet. */
  lemma CanonicalIff(bs: seq<byte>)
    requires ReadAddress(bs).AddressRead? && ReadAddress(bs).result.Ok?
    ensures Encodable(ReadAddress(bs).result.value)
    ensures Encode(ReadAddress(bs).result.value) + ReadAddress(bs).rest == bs
            <==> (bs[0] == ATYP_IPV4 ==> bs[4] == bs[5] == bs[6])
  {
    ReadAgreesWithDecode(bs);
    EncodeDecode(bs);
    var Decoded(a, rest) := Decode(bs);
    AsReadIsIdentityIffFaithful(a);
    if Encode(AsRead(a)) + rest == Encode(a) + rest {
      EncodingPrefixFree(AsRead(a), a, rest, rest);
    }
  }

  /** 10.0.0.1 port 80 is read as port 256: the last octet and the high port byte. */
  lemma PortCounterexample()
    ensures ReadAddress(Encode(IP(V4([10, 0, 0, 1], 80)))) == AddressRead(Ok(IP(V4([10, 0, 0, 1], 256))), [])
  {
    var a := IP(V4([10, 0, 0, 1], 80));
    assert Encode(a) + [] == Encode(a);
    ReadEncoded(a, []);
  }
}
