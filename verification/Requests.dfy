/** What the handshake accepts, what it reads, and what it answers, in terms of the client's bytes. */
module Requests {
  import opened Bytes
  import opened ReqAddrs
  import opened Codec
  import opened Handshake

  /** The method negotiation a client sends (RFC 1928, section 3). */
  function Greeting(methods: seq<byte>): seq<byte>
    requires |methods| <= 255
  {
    [SOCKS5_PROTOCOL, |methods|] + methods
  }

  /** A CONNECT request (RFC 1928, section 4); the reserved byte is not checked. */
  function Connect(reserved: byte, a: ReqAddr): seq<byte>
    requires Encodable(a)
  {
    [SOCKS5_PROTOCOL, SOCKS5_CMD_CONNECT, reserved] + Encode(a)
  }

  /** The client has offered NO AUTHENTICATION REQUIRED. */
  predicate Greeted(input: seq<byte>) {
    |input| >= 2 && input[0] == SOCKS5_PROTOCOL && |input| >= 2 + input[1] as int
    && SOCKS5_NO_AUTH in input[2..2 + input[1] as int]
  }

  /** The bytes behind the greeting. */
  function RequestBytes(input: seq<byte>): seq<byte>
    requires Greeted(input)
  {
    input[2 + input[1] as int..]
  }

  /** The head of a CONNECT request has arrived. */
  predicate ConnectHead(request: seq<byte>) {
    |request| >= 5 && request[0] == SOCKS5_PROTOCOL && request[1] == SOCKS5_CMD_CONNECT
  }

  predicate KnownType(atyp: byte) { atyp == ATYP_IPV4 || atyp == ATYP_DOMAIN || atyp == ATYP_IPV6 }

  // -- The negotiation -------------------------------------------------------------------------

  lemma OneMessage(message: seq<byte>, room: nat)
    ensures Flatten([message]) == message
    ensures Emit([message], room) == Emission([message], |message| <= room)
  {
    assert Flatten([message]) == message + Flatten([]);
    assert Emit([message][1..], if |message| <= room then room - |message| else 0) == Emission([], true);
  }

  lemma NoMessage(room: nat)
    ensures Flatten([]) == [] && Emit([], room) == Emission([], true)
  {
  }

  lemma AfterNothing(t: Trace, n: nat)
    ensures t.After([], n) == Trace(t.attempted, n + t.consumed, t.end)
  {
    assert [] + t.attempted == t.attempted;
  }

  /** Reading the two bytes of the greeting's head. */
  lemma HeadStep(input: seq<byte>, room: nat, debug: bool)
    requires |input| >= 2
    ensures var t := Run(MethodHead, input, room, debug);
            if input[0] != SOCKS5_PROTOCOL then t == Trace([], 2, Finished(Err(NotSocks5(input[0]))))
            else t == Run(MethodList(input[1]), input[2..], room, debug).After([], 2)
  {
    NoMessage(room);
    RunStep(MethodHead, input, room, debug);
    RestIsSuffix(MethodHead, input);
    hide Run;
    if input[0] != SOCKS5_PROTOCOL {
      RunAtOnce(Finished(Err(NotSocks5(input[0]))), input[2..], [], room, debug);
    }
  }

  lemma ListStep(count: byte, input: seq<byte>, room: nat, debug: bool)
    requires |input| >= count as int
    ensures var t := Run(MethodList(count), input, room, debug);
            if SOCKS5_NO_AUTH !in input[..count]
            then t == Trace([METHOD_REJECTED], count, if room < 2 then BROKEN else Finished(Err(NoSupportedMethod)))
            else if room < 2 then t == Trace([METHOD_ACCEPTED], count, BROKEN)
            else t == Run(RequestHead, input[count..], room - 2, debug).After([METHOD_ACCEPTED], count)
  {
    var message := if SOCKS5_NO_AUTH !in input[..count] then METHOD_REJECTED else METHOD_ACCEPTED;
    OneMessage(message, room);
    RestIsSuffix(MethodList(count), input);
    var done := Finished(Err(NoSupportedMethod));
    if room < 2 {
      RunCut(MethodList(count), input, room, debug);
    } else {
      RunStep(MethodList(count), input, room, debug);
      RunAtOnce(done, input[count..], [], room - 2, debug);
    }
    hide Run;
  }

  predicate Accepts(p: Phase) { p.Finished? && p.result.Ok? }

  /** The negotiation decides: without an offer of NO AUTHENTICATION there is at most a refusal and
      nothing is accepted; with one, the request is served behind the method selection. */
  lemma NegotiationDecides(input: seq<byte>, room: nat, debug: bool)
    ensures var t := Run(MethodHead, input, room, debug);
            if !Greeted(input) then (t.attempted == [] || t.attempted == [METHOD_REJECTED]) && !Accepts(t.end)
            else if room < 2 then t == Trace([METHOD_ACCEPTED], 2 + input[1] as int, BROKEN)
            else t == Run(RequestHead, RequestBytes(input), room - 2, debug)
                      .After([METHOD_ACCEPTED], 2 + input[1] as int)
  {
    hide Run;
    if |input| < 2 {
      RunAtOnce(MethodHead, input, [], room, debug);
    } else {
      HeadStep(input, room, debug);
      if input[0] == SOCKS5_PROTOCOL {
        var count := input[1];
        AfterNothing(Run(MethodList(count), input[2..], room, debug), 2);
        if |input[2..]| < count as int {
          RunAtOnce(MethodList(count), input[2..], [], room, debug);
        } else {
          assert input[2..][..count] == input[2..2 + count as int];
          assert input[2..][count..] == input[2 + count as int..];
          ListStep(count, input[2..], room, debug);
        }
      }
    }
  }

  // -- The request -----------------------------------------------------------------------------

  lemma TailSlices(request: seq<byte>, tail: nat)
    requires |request| >= 5 + tail
    ensures request[3..][2..tail + 2] == request[5..][..tail]
    ensures request[3..][1..tail + 2] == [request[4]] + request[5..][..tail]
    ensures request[3..][tail + 2..] == request[5..][tail..]
  {
    assert request[3..][2..tail + 2] == request[5..5 + tail] == request[5..][..tail];
    assert request[3..][tail + 2..] == request[5 + tail..] == request[5..][tail..];
    assert request[3..][1..tail + 2] == request[4..5 + tail];
  }

  /** The addresses of fixed length are either incomplete or read without an error. */
  lemma FixedRead(bs: seq<byte>)
    requires |bs| >= 2
    ensures bs[0] == ATYP_IPV4 ==>
              ReadAddress(bs) == (if |bs| < 7 then Incomplete else AddressRead(ParseAddressV4(bs[1..7]), bs[7..]))
              && (|bs| >= 7 ==> ParseAddressV4(bs[1..7]).Ok?)
    ensures bs[0] == ATYP_IPV6 ==>
              ReadAddress(bs) == (if |bs| < 19 then Incomplete else AddressRead(ParseAddressV6(bs[1..19]), bs[19..]))
              && (|bs| >= 19 ==> ParseAddressV6(bs[1..19]).Ok?)
  {
    hide Word;
  }

  lemma TailV4(request: seq<byte>, room: nat, debug: bool)
    requires ConnectHead(request) && request[3] == ATYP_IPV4
    ensures var t := Run(V4Tail(request[4]), request[5..], room, debug);
            var read := ReadAddress(request[3..]);
            if read.Incomplete? then t == Trace([], 0, V4Tail(request[4]))
            else read.AddressRead? && t == Trace([], 5, Finished(read.result)) && |read.rest| == |request| - 10
                 && read.result.Ok?
  {
    FixedRead(request[3..]);
    hide Run, ReadAddress, ParseAddressV4;
    if |request| >= 10 {
      NoMessage(room);
      RunStep(V4Tail(request[4]), request[5..], room, debug);
      TailSlices(request, 5);
      RunAtOnce(Finished(ParseAddressV4(request[3..][1..7])), Rest(V4Tail(request[4]), request[5..]), [], room, debug);
    } else {
      RunAtOnce(V4Tail(request[4]), request[5..], [], room, debug);
    }
  }

  lemma TailV6(request: seq<byte>, room: nat, debug: bool)
    requires ConnectHead(request) && request[3] == ATYP_IPV6
    ensures var t := Run(V6Tail(request[4]), request[5..], room, debug);
            var read := ReadAddress(request[3..]);
            if read.Incomplete? then t == Trace([], 0, V6Tail(request[4]))
            else read.AddressRead? && t == Trace([], 17, Finished(read.result)) && |read.rest| == |request| - 22
                 && read.result.Ok?
  {
    FixedRead(request[3..]);
    hide Run, ReadAddress, ParseAddressV6;
    if |request| >= 22 {
      NoMessage(room);
      RunStep(V6Tail(request[4]), request[5..], room, debug);
      TailSlices(request, 17);
      RunAtOnce(Finished(ParseAddressV6(request[3..][1..19])), Rest(V6Tail(request[4]), request[5..]), [], room, debug);
    } else {
      RunAtOnce(V6Tail(request[4]), request[5..], [], room, debug);
    }
  }

  lemma NameRead(bs: seq<byte>)
    requires |bs| >= 2 && bs[0] == ATYP_DOMAIN && bs[1] <= 253
    ensures var n: nat := bs[1];
            if |bs| < n + 4 then ReadAddress(bs) == Incomplete
            else
              && ReadAddress(bs) == AddressRead(ParseDomain(n, bs[2..n + 4]), bs[n + 4..])
              && !ParseDomain(n, bs[2..n + 4]).Panicked?
              && (ParseDomain(n, bs[2..n + 4]).Err? ==> ParseDomain(n, bs[2..n + 4]) == Err(Utf8Error))
  {
    hide ValidUtf8, Word;
  }

  lemma TailDomain(request: seq<byte>, room: nat, debug: bool)
    requires ConnectHead(request) && request[3] == ATYP_DOMAIN && request[4] <= 253
    ensures var n: nat := request[4];
            var t := Run(DomainTail(request[4]), request[5..], room, debug);
            var read := ReadAddress(request[3..]);
            if read.Incomplete? then t == Trace([], 0, DomainTail(request[4]))
            else
              && read.AddressRead? && |read.rest| == |request| - (n + 7) && !read.result.Panicked?
              && if read.result.Ok? then t == Trace([], n + 2, Finished(read.result))
                 else if debug then t == Trace([], n + 2, Finished(Panicked))
                 else t == Trace([UNSUPPORTED_TYPE], n + 2, if room < 10 then BROKEN else Finished(Err(Utf8Error)))
  {
    hide Run, ValidUtf8;
    var n: nat := request[4];
    var p := DomainTail(request[4]);
    var tail := request[5..];
    NameRead(request[3..]);
    if |request| >= n + 7 {
      TailSlices(request, n + 2);
      var r := ParseDomain(n, tail[..n + 2]);
      hide ParseDomain, ReadAddress;
      if r.Ok? || debug {
        NoMessage(room);
        RunStep(p, tail, room, debug);
        RunAtOnce(if r.Ok? then Finished(r) else Finished(Panicked), Rest(p, tail), [], room, debug);
      } else {
        OneMessage(UNSUPPORTED_TYPE, room);
        if room < 10 {
          RunCut(p, tail, room, debug);
        } else {
          RunStep(p, tail, room, debug);
          RunAtOnce(Finished(r), Rest(p, tail), [], room - 10, debug);
        }
      }
    } else {
      RunAtOnce(p, tail, [], room, debug);
    }
  }

  lemma TwoReplies(room: nat)
    ensures |UNSUPPORTED_TYPE| == 10
            && Flatten([UNSUPPORTED_TYPE, UNSUPPORTED_TYPE]) == UNSUPPORTED_TYPE + UNSUPPORTED_TYPE
    ensures Emit([UNSUPPORTED_TYPE, UNSUPPORTED_TYPE], room)
            == if room < 10 then Emission([UNSUPPORTED_TYPE], false)
               else Emission([UNSUPPORTED_TYPE, UNSUPPORTED_TYPE], room >= 20)
  {
    var both := [UNSUPPORTED_TYPE, UNSUPPORTED_TYPE];
    assert both[1..] == [UNSUPPORTED_TYPE];
    OneMessage(UNSUPPORTED_TYPE, if room < 10 then 0 else room - 10);
  }

  /** A request head whose reaction writes nothing. */
  lemma QuietHead(request: seq<byte>, room: nat, debug: bool)
    requires |request| >= 5 && Step(RequestHead, request, debug).writes == []
    ensures var next := Step(RequestHead, request, debug).next;
            Run(RequestHead, request, room, debug)
            == Trace(Run(next, request[5..], room, debug).attempted,
                     5 + Run(next, request[5..], room, debug).consumed,
                     Run(next, request[5..], room, debug).end)
    ensures var next := Step(RequestHead, request, debug).next;
            next.Finished? ==> Run(RequestHead, request, room, debug) == Trace([], 5, next)
  {
    NoMessage(room);
    RunStep(RequestHead, request, room, debug);
    RestIsSuffix(RequestHead, request);
    var next := Step(RequestHead, request, debug).next;
    AfterNothing(Run(next, request[5..], room, debug), 5);
    if next.Finished? {
      RunAtOnce(next, request[5..], [], room, debug);
    }
    hide *;
  }

  lemma CommandRejected(request: seq<byte>, room: nat, debug: bool)
    requires |request| >= 5 && request[0] == SOCKS5_PROTOCOL && request[1] != SOCKS5_CMD_CONNECT
    ensures Run(RequestHead, request, room, debug)
            == Trace([UNSUPPORTED_COMMAND], 5, if room < 10 then BROKEN else Finished(Err(NotConnect)))
  {
    hide Run;
    OneMessage(UNSUPPORTED_COMMAND, room);
    if room < 10 {
      RunCut(RequestHead, request, room, debug);
    } else {
      RunStep(RequestHead, request, room, debug);
      RunAtOnce(Finished(Err(NotConnect)), Rest(RequestHead, request), [], room - 10, debug);
    }
  }

  lemma TypeRejected(request: seq<byte>, room: nat, debug: bool)
    requires ConnectHead(request) && !KnownType(request[3])
    ensures Run(RequestHead, request, room, debug)
            == if room < 10 then Trace([UNSUPPORTED_TYPE], 5, BROKEN)
               else Trace([UNSUPPORTED_TYPE, UNSUPPORTED_TYPE], 5,
                          if room < 20 then BROKEN else Finished(Err(InvalidSocks5AddrType)))
  {
    hide Run, Emit;
    TwoReplies(room);
    if room < 20 {
      RunCut(RequestHead, request, room, debug);
    } else {
      RunStep(RequestHead, request, room, debug);
      RunAtOnce(Finished(Err(InvalidSocks5AddrType)), Rest(RequestHead, request), [], room - 20, debug);
    }
  }

  /** The complete account of what the proxy does behind the method selection. */
  predicate Decided(request: seq<byte>, t: Trace, room: nat, debug: bool) {
    if |request| < 5 then t == Trace([], 0, RequestHead)
    else if request[0] != SOCKS5_PROTOCOL then t == Trace([], 5, Finished(Err(NotSocks5(request[0]))))
    else if request[1] != SOCKS5_CMD_CONNECT then
      t == Trace([UNSUPPORTED_COMMAND], 5, if room < 10 then BROKEN else Finished(Err(NotConnect)))
    else
      match ReadAddress(request[3..])
      case Incomplete => t.attempted == [] && !t.end.Finished?
      case UnknownType =>
        if room < 10 then t == Trace([UNSUPPORTED_TYPE], 5, BROKEN)
        else t == Trace([UNSUPPORTED_TYPE, UNSUPPORTED_TYPE], 5,
                        if room < 20 then BROKEN else Finished(Err(InvalidSocks5AddrType)))
      case AddressRead(Ok(a), rest) => t == Trace([], |request| - |rest|, Finished(Ok(a)))
      case AddressRead(Panicked, _) => t == Trace([], 5, Finished(Panicked))
      case AddressRead(Err(_), rest) =>
        if debug then t == Trace([], |request| - |rest|, Finished(Panicked))
        else t == Trace([UNSUPPORTED_TYPE], |request| - |rest|, if room < 10 then BROKEN else Finished(Err(Utf8Error)))
  }

  lemma RequestDecides(request: seq<byte>, room: nat, debug: bool)
    ensures Decided(request, Run(RequestHead, request, room, debug), room, debug)
  {
    hide Run, ParseAddressV4, ParseAddressV6, ParseDomain;
    if |request| < 5 {
      RunAtOnce(RequestHead, request, [], room, debug);
    } else if request[0] != SOCKS5_PROTOCOL {
      QuietHead(request, room, debug);
    } else if request[1] != SOCKS5_CMD_CONNECT {
      CommandRejected(request, room, debug);
    } else if !KnownType(request[3]) {
      TypeRejected(request, room, debug);
    } else {
      QuietHead(request, room, debug);
      if request[3] == ATYP_IPV4 {
        TailV4(request, room, debug);
      } else if request[3] == ATYP_IPV6 {
        TailV6(request, room, debug);
      } else if request[4] <= 253 {
        TailDomain(request, room, debug);
      }
    }
  }

  lemma NotUtf8(bs: seq<byte>)
    requires bs == [ATYP_DOMAIN, 1, 0xFF, 0, 80]
    ensures ReadAddress(bs) == AddressRead(Err(Utf8Error), [])
  {
    assert bs[2..5] == [0xFF, 0, 80] && bs[2..5][..1] == [0xFF];
    assert !ValidUtf8([0xFF]);
  }

  /** A request for the one-byte name FF, which is not UTF-8: refused, or a panic when debug logging is on. */
  lemma DebugLoggingPanics()
    ensures var request: seq<byte> := [SOCKS5_PROTOCOL, SOCKS5_CMD_CONNECT, 0, ATYP_DOMAIN, 1, 0xFF, 0, 80];
            && Run(RequestHead, request, 10, true) == Trace([], 8, Finished(Panicked))
            && Run(RequestHead, request, 10, false) == Trace([UNSUPPORTED_TYPE], 8, Finished(Err(Utf8Error)))
  {
    var request: seq<byte> := [SOCKS5_PROTOCOL, SOCKS5_CMD_CONNECT, 0, ATYP_DOMAIN, 1, 0xFF, 0, 80];
    hide Run;
    RequestDecides(request, 10, true);
    RequestDecides(request, 10, false);
    NotUtf8(request[3..]);
  }

  // -- Acceptance ------------------------------------------------------------------------------

  lemma EncodedLength(a: ReqAddr)
    requires Encodable(a)
    ensures |Encode(a)| >= 4
  {
  }

  lemma ConnectParts(reserved: byte, a: ReqAddr, rest: seq<byte>)
    requires Encodable(a)
    ensures var request := Connect(reserved, a) + rest;
            ConnectHead(request) && request[3..] == Encode(a) + rest && |request| == |Connect(reserved, a)| + |rest|
  {
    EncodedLength(a);
    hide Encode;
    var front := [SOCKS5_PROTOCOL, SOCKS5_CMD_CONNECT, reserved];
    assert Connect(reserved, a) == front + Encode(a);
    var request := Connect(reserved, a) + rest;
    assert request == front + (Encode(a) + rest);
    hide Connect;
    assert request[..3] == front && request[3..] == Encode(a) + rest;
  }

  lemma DecidedByAddress(request: seq<byte>, t: Trace, room: nat, debug: bool)
    requires ConnectHead(request) && Decided(request, t, room, debug)
    ensures match ReadAddress(request[3..])
            case AddressRead(Ok(a), rest) => t == Trace([], |request| - |rest|, Finished(Ok(a)))
            case AddressRead(Panicked, _) => t == Trace([], 5, Finished(Panicked))
            case _ => true
  {
    hide ReadAddress, Reply;
  }

  /** The request behind a greeting is complete, well formed and readable. */
  lemma ReadsWellFormed(reserved: byte, a: ReqAddr, rest: seq<byte>, room: nat, debug: bool)
    requires Encodable(a) && Readable(a)
    ensures Run(RequestHead, Connect(reserved, a) + rest, room, debug)
            == Trace([], |Connect(reserved, a)|, Finished(Ok(AsRead(a))))
  {
    hide *;
    var request := Connect(reserved, a) + rest;
    ConnectParts(reserved, a, rest);
    ReadEncoded(a, rest);
    RequestDecides(request, room, debug);
    DecidedByAddress(request, Run(RequestHead, request, room, debug), room, debug);
  }

  lemma GreetedSplit(methods: seq<byte>, request: seq<byte>)
    requires |methods| <= 255 && SOCKS5_NO_AUTH in methods
    ensures Greeted(Greeting(methods) + request)
    ensures (Greeting(methods) + request)[1] == |methods|
    ensures RequestBytes(Greeting(methods) + request) == request
  {
    var input := Greeting(methods) + request;
    assert input[2..2 + |methods|] == methods;
  }

  /** Every well-formed client stream is accepted: exactly the greeting and the request are read, only
      the method selection is written, and the address is the client's as the source reads it. */
  lemma AcceptsWellFormed(methods: seq<byte>, reserved: byte, a: ReqAddr, rest: seq<byte>, room: nat, debug: bool)
    requires |methods| <= 255 && SOCKS5_NO_AUTH in methods
    requires Encodable(a) && Readable(a) && room >= 2
    ensures Run(MethodHead, Greeting(methods) + Connect(reserved, a) + rest, room, debug)
            == Trace([METHOD_ACCEPTED], |Greeting(methods)| + |Connect(reserved, a)|, Finished(Ok(AsRead(a))))
  {
    var request := Connect(reserved, a) + rest;
    var input := Greeting(methods) + Connect(reserved, a) + rest;
    GreetedSplit(methods, request);
    assert input == Greeting(methods) + request;
    NegotiationDecides(input, room, debug);
    ReadsWellFormed(reserved, a, rest, room - 2, debug);
    hide Run, Connect, Greeted;
  }

  lemma AcceptedGreeting(input: seq<byte>, room: nat, debug: bool)
    requires Accepts(Run(MethodHead, input, room, debug).end)
    ensures Greeted(input) && room >= 2 && 2 <= 2 + input[1] as int <= |input|
    ensures SOCKS5_NO_AUTH in input[2..2 + input[1] as int]
    ensures Accepts(Run(RequestHead, RequestBytes(input), room - 2, debug).end)
  {
    hide Run;
    NegotiationDecides(input, room, debug);
  }

  lemma AcceptedRequest(request: seq<byte>, room: nat, debug: bool)
    requires Accepts(Run(RequestHead, request, room, debug).end)
    ensures ConnectHead(request) && |request| >= 5
    ensures var d := Decode(request[3..]);
            d.Decoded? && Encodable(d.addr) && Readable(d.addr) && Encode(d.addr) + d.rest == request[3..]
  {
    hide Run, Encode, Decode;
    RequestDecides(request, room, debug);
    ReadAgreesWithDecode(request[3..]);
    EncodeDecode(request[3..]);
  }

  lemma AcceptedSplit(input: seq<byte>, methods: seq<byte>, reserved: byte, a: ReqAddr, rest: seq<byte>)
    requires Greeted(input) && methods == input[2..2 + input[1] as int] && ConnectHead(RequestBytes(input))
    requires reserved == RequestBytes(input)[2] && Encodable(a) && Encode(a) + rest == RequestBytes(input)[3..]
    ensures |methods| <= 255 && input == Greeting(methods) + Connect(reserved, a) + rest
  {
    hide Encode;
    var request := RequestBytes(input);
    assert request == [SOCKS5_PROTOCOL, SOCKS5_CMD_CONNECT, reserved] + request[3..];
    assert request == Connect(reserved, a) + rest;
    assert input == Greeting(methods) + request;
  }

  /** Nothing else is accepted: an accepted stream is a greeting that offers NO AUTHENTICATION, a
      CONNECT request for an address the source can read, and the rest, which is left unread. */
  lemma AcceptedIsWellFormed(input: seq<byte>, room: nat, debug: bool)
    returns (methods: seq<byte>, reserved: byte, a: ReqAddr, rest: seq<byte>)
    requires Accepts(Run(MethodHead, input, room, debug).end)
    ensures |methods| <= 255 && SOCKS5_NO_AUTH in methods && Encodable(a) && Readable(a) && room >= 2
    ensures input == Greeting(methods) + Connect(reserved, a) + rest
    ensures Run(MethodHead, input, room, debug)
            == Trace([METHOD_ACCEPTED], |input| - |rest|, Finished(Ok(AsRead(a))))
  {
    hide *;
    AcceptedGreeting(input, room, debug);
    var request := RequestBytes(input);
    AcceptedRequest(request, room - 2, debug);
    methods := input[2..2 + input[1] as int];
    reserved, a, rest := request[2], Decode(request[3..]).addr, Decode(request[3..]).rest;
    AcceptedSplit(input, methods, reserved, a, rest);
    AcceptsWellFormed(methods, reserved, a, rest, room, debug);
    assert |Greeting(methods) + Connect(reserved, a) + rest| == |Greeting(methods)| + |Connect(reserved, a)| + |rest|;
  }
}
