/** The SOCKS5 protocol of src/socks5 in the bytes on the wire, as RFC 1928 gives them: what clients send and what
    they are answered, without the names the model has for messages and codes. */
module Wire {
  import opened Bytes
  import opened ReqAddrs
  import opened Codec
  import opened Handshake
  import opened Requests

  // -- Method negotiation ----------------------------------------------------------------------

  lemma GreetingBytes(methods: seq<byte>, request: seq<byte>)
    requires |methods| <= 255
    ensures var input := [5, |methods|] + methods + request;
            && |input| >= 2 + |methods| && input[0] == SOCKS5_PROTOCOL && input[1] == |methods|
            && input[2..] == methods + request && input[2..2 + |methods|] == methods
            && input[2..][..|methods|] == methods && input[2..][|methods|..] == request
            && input[2 + |methods|..] == request
  {
  }

  /** A greeting is answered 05 00 when 00 is among the methods, and then the request is served; otherwise it is
      answered 05 FF, and that is all. */
  lemma Selection(methods: seq<byte>, request: seq<byte>, room: nat, debug: bool)
    requires |methods| <= 255
    ensures var t := Run(MethodHead, [5, |methods|] + methods + request, room, debug);
            if 0 !in methods then
              t == Trace([[5, 255]], 2 + |methods|, Finished(Err(if room < 2 then Io else NoSupportedMethod)))
            else if room < 2 then t == Trace([[5, 0]], 2 + |methods|, Finished(Err(Io)))
            else
              var u := Run(RequestHead, request, room - 2, debug);
              t == Trace([[5, 0]] + u.attempted, 2 + |methods| + u.consumed, u.end)
  {
    hide Run;
    var input := [5, |methods|] + methods + request;
    GreetingBytes(methods, request);
    HeadStep(input, room, debug);
    AfterNothing(Run(MethodList(|methods|), input[2..], room, debug), 2);
    ListStep(|methods|, input[2..], room, debug);
  }

  /** Any other version is turned away without an answer. */
  lemma OtherVersion(input: seq<byte>, room: nat, debug: bool)
    requires |input| >= 2 && input[0] != 5
    ensures Run(MethodHead, input, room, debug) == Trace([], 2, Finished(Err(NotSocks5(input[0]))))
  {
    hide Run;
    HeadStep(input, room, debug);
  }

  // -- Requests --------------------------------------------------------------------------------

  lemma IPv4Bytes(reserved: byte, octets: Octets, p: byte, q: byte)
    ensures Connect(reserved, IP(V4(octets, 256 * p + q))) == [5, 1, reserved, 1] + octets + [p, q]
    ensures AsRead(IP(V4(octets, 256 * p + q))) == IP(V4(octets, 256 * octets[3] + p))
  {
    WordParts(p, q);
  }

  /** 05 01 xx 01, four bytes, two bytes: an IPv4 address. The port is that of the last octet and the first port
      byte, not of the two port bytes. */
  lemma IPv4Request(reserved: byte, octets: Octets, p: byte, q: byte, rest: seq<byte>, room: nat, debug: bool)
    ensures Run(RequestHead, [5, 1, reserved, 1] + octets + [p, q] + rest, room, debug)
            == Trace([], 10, Finished(Ok(IP(V4(octets, 256 * octets[3] + p)))))
  {
    hide Run, Connect, AsRead;
    IPv4Bytes(reserved, octets, p, q);
    ReadsWellFormed(reserved, IP(V4(octets, 256 * p + q)), rest, room, debug);
  }

  lemma SegmentAt(bytes: seq<byte>, k: nat)
    requires |bytes| == 16 && k < 8
    ensures SegmentsOf(bytes)[k] == 256 * bytes[2 * k] as int + bytes[2 * k + 1] as int
  {
  }

  lemma SegmentsJoined(bytes: seq<byte>)
    requires |bytes| == 16
    ensures forall k :: 0 <= k < 8 ==> SegmentsOf(bytes)[k] == 256 * bytes[2 * k] as int + bytes[2 * k + 1] as int
  {
    hide SegmentsOf;
    forall k | 0 <= k < 8 ensures SegmentsOf(bytes)[k] == 256 * bytes[2 * k] as int + bytes[2 * k + 1] as int {
      SegmentAt(bytes, k);
    }
  }

  lemma IPv6Bytes(reserved: byte, bytes: seq<byte>, p: byte, q: byte)
    requires |bytes| == 16
    ensures var a := IP(V6(SegmentsOf(bytes), 256 * p + q));
            Connect(reserved, a) == [5, 1, reserved, 4] + bytes + [p, q] && AsRead(a) == a
  {
    WordParts(p, q);
    BytesRoundTrip(bytes);
    assert [5, 1, reserved, 4] == [5, 1, reserved] + [4];
    assert Encode(IP(V6(SegmentsOf(bytes), 256 * p + q))) == [4] + bytes + [p, q];
    hide SegmentBytes, SegmentsOf, Encode;
    assert [5, 1, reserved] + ([4] + bytes + [p, q]) == [5, 1, reserved] + [4] + bytes + [p, q];
  }

  /** 05 01 xx 04, sixteen bytes, two bytes: an IPv6 address of eight segments, and the port, high bytes first. */
  lemma IPv6Request(reserved: byte, bytes: seq<byte>, p: byte, q: byte, rest: seq<byte>, room: nat, debug: bool)
    returns (segments: Segments)
    requires |bytes| == 16
    ensures forall k :: 0 <= k < 8 ==> segments[k] == 256 * bytes[2 * k] as int + bytes[2 * k + 1] as int
    ensures Run(RequestHead, [5, 1, reserved, 4] + bytes + [p, q] + rest, room, debug)
            == Trace([], 22, Finished(Ok(IP(V6(segments, 256 * p + q)))))
  {
    hide Run, Connect, AsRead, SegmentsOf;
    IPv6Bytes(reserved, bytes, p, q);
    segments := SegmentsOf(bytes);
    SegmentsJoined(bytes);
    ReadsWellFormed(reserved, IP(V6(segments, 256 * p + q)), rest, room, debug);
  }

  lemma DomainBytes(reserved: byte, name: Utf8, p: byte, q: byte)
    requires |name| <= 255
    ensures var a := Domain(name, 256 * p + q);
            Connect(reserved, a) == [5, 1, reserved, 3, |name|] + name + [p, q] && AsRead(a) == a
  {
    WordParts(p, q);
    hide ValidUtf8;
  }

  /** 05 01 xx 03, a length, that many bytes, two bytes: a name and the port. */
  lemma DomainRequest(reserved: byte, name: Utf8, p: byte, q: byte, rest: seq<byte>, room: nat, debug: bool)
    requires |name| <= 253
    ensures Run(RequestHead, [5, 1, reserved, 3, |name|] + name + [p, q] + rest, room, debug)
            == Trace([], |name| + 7, Finished(Ok(Domain(name, 256 * p + q))))
  {
    hide Run, Connect, AsRead, ValidUtf8;
    DomainBytes(reserved, name, p, q);
    ReadsWellFormed(reserved, Domain(name, 256 * p + q), rest, room, debug);
  }

  lemma NameSlices(bs: seq<byte>, name: seq<byte>, p: byte, q: byte, rest: seq<byte>)
    requires |name| <= 255 && bs == [3, |name|] + name + [p, q] + rest
    ensures |bs| == |name| + 4 + |rest| && bs[0] == 3 && bs[1] == |name|
    ensures bs[2..|name| + 4] == name + [p, q] && bs[|name| + 4..] == rest
    ensures (name + [p, q])[..|name|] == name
  {
  }

  lemma BadNameRead(bs: seq<byte>, name: seq<byte>, p: byte, q: byte, rest: seq<byte>)
    requires |name| <= 253 && bs == [3, |name|] + name + [p, q] + rest && !ValidUtf8(name)
    ensures ReadAddress(bs) == AddressRead(Err(Utf8Error), rest)
  {
    NameSlices(bs, name, p, q, rest);
    hide ValidUtf8, ParseAddressV4, ParseAddressV6, Word;
    assert ParseDomain(|name|, name + [p, q]) == Err(Utf8Error);
    hide ParseDomain;
  }

  lemma Regroup(a: seq<byte>, b: seq<byte>, c: seq<byte>, d: seq<byte>, e: seq<byte>)
    ensures a + b + c + d + e == a + (b + c + d + e)
  {
    assert a + b + c == a + (b + c);
    assert a + (b + c) + d == a + (b + c + d);
  }

  lemma BehindHead(head: seq<byte>, tail: seq<byte>)
    requires |head| == 3
    ensures |head + tail| == 3 + |tail| && (head + tail)[3..] == tail
    ensures (head + tail)[0] == head[0] && (head + tail)[1] == head[1]
  {
  }

  lemma HeadParted(head: seq<byte>, l: seq<byte>, name: seq<byte>, port: seq<byte>, rest: seq<byte>)
    requires |head| == 3
    ensures var request := head + l + name + port + rest;
            && |request| == 3 + |l| + |name| + |port| + |rest|
            && request[0] == head[0] && request[1] == head[1]
            && request[3..] == l + name + port + rest
  {
    Regroup(head, l, name, port, rest);
    BehindHead(head, l + name + port + rest);
  }

  lemma HeadSplit(reserved: byte, length: byte)
    ensures [5, 1, reserved, 3, length] == [5, 1, reserved] + [3, length]
  {
  }

  lemma NamePart(request: seq<byte>, reserved: byte, name: seq<byte>, p: byte, q: byte, rest: seq<byte>)
    requires |name| <= 253 && request == [5, 1, reserved, 3, |name|] + name + [p, q] + rest && !ValidUtf8(name)
    ensures |request| == |name| + 7 + |rest| && request[0] == 5 && request[1] == 1
    ensures ReadAddress(request[3..]) == AddressRead(Err(Utf8Error), rest)
  {
    hide *;
    HeadSplit(reserved, |name|);
    HeadParted([5, 1, reserved], [3, |name|], name, [p, q], rest);
    BadNameRead(request[3..], name, p, q, rest);
  }

  lemma Replies()
    ensures UNSUPPORTED_COMMAND == [5, 7, 0, 1, 127, 0, 0, 1, 0, 0]
    ensures UNSUPPORTED_TYPE == [5, 8, 0, 1, 127, 0, 0, 1, 0, 0]
  {
  }

  /** A name that is not UTF-8 is answered 05 08, or panics when debug logging is on. */
  lemma BadNameRequest(reserved: byte, name: seq<byte>, p: byte, q: byte, rest: seq<byte>, room: nat, debug: bool)
    requires |name| <= 253 && !ValidUtf8(name)
    ensures var t := Run(RequestHead, [5, 1, reserved, 3, |name|] + name + [p, q] + rest, room, debug);
            if debug then t == Trace([], |name| + 7, Finished(Panicked))
            else t == Trace([[5, 8, 0, 1, 127, 0, 0, 1, 0, 0]], |name| + 7,
                            Finished(Err(if room < 10 then Io else Utf8Error)))
  {
    hide Run;
    var request := [5, 1, reserved, 3, |name|] + name + [p, q] + rest;
    NamePart(request, reserved, name, p, q, rest);
    RequestDecides(request, room, debug);
    Replies();
    hide ValidUtf8, Reply;
  }

  /** A name of 254 or 255 bytes panics as soon as its length is read. */
  lemma LongNameRequest(reserved: byte, length: byte, rest: seq<byte>, room: nat, debug: bool)
    requires length >= 254
    ensures Run(RequestHead, [5, 1, reserved, 3, length] + rest, room, debug) == Trace([], 5, Finished(Panicked))
  {
    hide Run;
    var request := [5, 1, reserved, 3, length] + rest;
    assert request[3..] == [3, length] + rest;
    RequestDecides(request, room, debug);
    hide ParseDomain;
  }

  /** Every request but CONNECT is answered 05 07, with the address 127.0.0.1 and port 0. */
  lemma OtherCommand(request: seq<byte>, room: nat, debug: bool)
    requires |request| >= 5 && request[0] == 5 && request[1] != 1
    ensures Run(RequestHead, request, room, debug)
            == Trace([[5, 7, 0, 1, 127, 0, 0, 1, 0, 0]], 5, Finished(Err(if room < 10 then Io else NotConnect)))
  {
    hide Run;
    RequestDecides(request, room, debug);
    Replies();
    hide Reply, ReadAddress;
  }

  /** Every address type but 1, 3 and 4 is answered 05 08 - twice, unless the first answer does not fit. */
  lemma OtherType(request: seq<byte>, room: nat, debug: bool)
    requires |request| >= 5 && request[0] == 5 && request[1] == 1 && request[3] !in {1, 3, 4}
    ensures var reply := [5, 8, 0, 1, 127, 0, 0, 1, 0, 0];
            Run(RequestHead, request, room, debug)
            == if room < 10 then Trace([reply], 5, Finished(Err(Io)))
               else Trace([reply, reply], 5, Finished(Err(if room < 20 then Io else InvalidSocks5AddrType)))
  {
    hide Run;
    RequestDecides(request, room, debug);
    Replies();
    hide Reply;
  }

  /** A request of another version is turned away without an answer. */
  lemma OtherRequestVersion(request: seq<byte>, room: nat, debug: bool)
    requires |request| >= 5 && request[0] != 5
    ensures Run(RequestHead, request, room, debug) == Trace([], 5, Finished(Err(NotSocks5(request[0]))))
  {
    hide Run;
    RequestDecides(request, room, debug);
    hide ReadAddress, Reply;
  }

  // -- Accepted clients ------------------------------------------------------------------------

  /** A client that offers 00 and asks for an IPv4 address has been answered 05 00 and nothing else. */
  lemma AcceptsIPv4(methods: seq<byte>, reserved: byte, octets: Octets, p: byte, q: byte, rest: seq<byte>, room: nat,
      debug: bool)
    requires |methods| <= 255 && 0 in methods && room >= 2
    ensures Run(MethodHead, [5, |methods|] + methods + ([5, 1, reserved, 1] + octets + [p, q] + rest), room, debug)
            == Trace([[5, 0]], |methods| + 12, Finished(Ok(IP(V4(octets, 256 * octets[3] + p)))))
  {
    hide *;
    Selection(methods, [5, 1, reserved, 1] + octets + [p, q] + rest, room, debug);
    IPv4Request(reserved, octets, p, q, rest, room - 2, debug);
  }

  lemma AcceptsIPv6(methods: seq<byte>, reserved: byte, bytes: seq<byte>, p: byte, q: byte, rest: seq<byte>, room: nat,
      debug: bool) returns (segments: Segments)
    requires |methods| <= 255 && 0 in methods && room >= 2 && |bytes| == 16
    ensures forall k :: 0 <= k < 8 ==> segments[k] == 256 * bytes[2 * k] as int + bytes[2 * k + 1] as int
    ensures Run(MethodHead, [5, |methods|] + methods + ([5, 1, reserved, 4] + bytes + [p, q] + rest), room, debug)
            == Trace([[5, 0]], |methods| + 24, Finished(Ok(IP(V6(segments, 256 * p + q)))))
  {
    hide *;
    Selection(methods, [5, 1, reserved, 4] + bytes + [p, q] + rest, room, debug);
    segments := IPv6Request(reserved, bytes, p, q, rest, room - 2, debug);
  }

  lemma AcceptsDomain(methods: seq<byte>, reserved: byte, name: Utf8, p: byte, q: byte, rest: seq<byte>, room: nat,
      debug: bool)
    requires |methods| <= 255 && 0 in methods && room >= 2 && |name| <= 253
    ensures var request := [5, 1, reserved, 3, |name|] + name + [p, q] + rest;
            Run(MethodHead, [5, |methods|] + methods + request, room, debug)
            == Trace([[5, 0]], |methods| + |name| + 9, Finished(Ok(Domain(name, 256 * p + q))))
  {
    hide *;
    Selection(methods, [5, 1, reserved, 3, |name|] + name + [p, q] + rest, room, debug);
    DomainRequest(reserved, name, p, q, rest, room - 2, debug);
  }

  // -- Replies ---------------------------------------------------------------------------------

  /** A reply is 05, the code, 00, and the address and port as in a request. */
  lemma IPv4Reply(code: byte, octets: Octets, port: u16)
    ensures Reply(code, IP(V4(octets, port))) == [5, code, 0, 1] + octets + [port / 256, port % 256]
  {
  }

  lemma DomainReply(code: byte, name: Utf8, port: u16)
    requires |name| <= 255
    ensures Reply(code, Domain(name, port)) == [5, code, 0, 3, |name|] + name + [port / 256, port % 256]
  {
    hide ValidUtf8;
  }

  lemma SegmentBytesAt(segments: Segments, k: nat)
    requires k < 8
    ensures SegmentBytes(segments)[2 * k] == segments[k] / 256 && SegmentBytes(segments)[2 * k + 1] == segments[k] % 256
  {
  }

  /** Of each segment the high byte comes first. */
  lemma IPv6Reply(code: byte, segments: Segments, port: u16)
    ensures var reply := Reply(code, IP(V6(segments, port)));
            && |reply| == 22 && reply[..4] == [5, code, 0, 4] && reply[20..] == [port / 256, port % 256]
            && forall k :: 0 <= k < 8 ==>
                 segments[k] / 256 == reply[4 + 2 * k] && segments[k] % 256 == reply[5 + 2 * k]
  {
    var reply := Reply(code, IP(V6(segments, port)));
    forall k | 0 <= k < 8 ensures segments[k] / 256 == reply[4 + 2 * k] && segments[k] % 256 == reply[5 + 2 * k] {
      SegmentBytesAt(segments, k);
    }
    hide SegmentBytes;
    assert reply == [5, code, 0, 4] + SegmentBytes(segments) + PortBytes(port);
  }

  /** A reply with an IPv6 address read off a request has the bytes of the request. */
  lemma IPv6Echo(code: byte, bytes: seq<byte>, p: byte, q: byte)
    requires |bytes| == 16
    ensures Reply(code, IP(V6(SegmentsOf(bytes), 256 * p + q))) == [5, code, 0, 4] + bytes + [p, q]
  {
    WordParts(p, q);
    BytesRoundTrip(bytes);
    hide SegmentBytes, SegmentsOf;
  }
}
