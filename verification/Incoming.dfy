/** src/socks5/incoming.rs: the client's connection and the methods that drive the handshake on it. */
module Incoming {
  import opened Bytes
  import opened Streams
  import opened ReqAddrs
  import opened Codec
  import opened Handshake
  import opened Requests

  /** A connection after a run of the handshake; a read that meets end of stream has drained it. */
  function ConnAfter(c: Conn, t: Trace): Conn
    requires t.consumed <= |c.inbox|
  {
    var w := t.Wrote(c.room);
    Conn(if t.end.Finished? then c.inbox[t.consumed..] else [], c.room - |w|, c.sent + w)
  }

  /** What a caller of `next_request` gets; end of stream in the middle of a read is an I/O error. */
  function Verdict(p: Phase): Result<ReqAddr> {
    if p.Finished? then p.result else Err(Io)
  }

  /** `OutgoingError`, without the errors it wraps. */
  datatype OutgoingError = GeneralFailure | NetworkUnreachable | HostUnreachable | ConnectionRefused | TimedOut

  function GetReason(e: OutgoingError): byte {
    match e
    case GeneralFailure => GENERAL_PROXY_FAILURE
    case NetworkUnreachable => NETWORK_UNREACHABLE
    case HostUnreachable => HOST_UNREACHABLE
    case ConnectionRefused => CONNECTION_REFUSED
    case TimedOut => TTL_EXPIRED
  }

  /** The client can tell the five errors apart, from each other and from every other reply. */
  lemma ReasonsDistinguish(e: OutgoingError, f: OutgoingError)
    ensures GetReason(e) == GetReason(f) ==> e == f
    ensures GetReason(e) !in {SUCCESS, COMMAND_NOT_SUPPORTED, ADDRESS_TYPE_NOT_SUPPORTED}
  {
  }

  /** `authenticate_client` on c leaves c2 and answers r: either the request comes next, or the handshake
      is over as `Run` says. */
  ghost predicate NegotiationEnds(c: Conn, debug: bool, c2: Conn, r: Result<()>) {
    if Greeted(c.inbox) && c.room >= 2 then
      c2 == Conn(RequestBytes(c.inbox), c.room - 2, c.sent + METHOD_ACCEPTED) && r == Ok(())
    else
      var t := Run(MethodHead, c.inbox, c.room, debug);
      c2 == ConnAfter(c, t) && r.Err? && Verdict(t.end) == Err(r.error)
  }

  /** `get_request` on c leaves c2 and answers r, as `Run` does from behind the negotiation. */
  ghost predicate RequestEnds(c: Conn, debug: bool, c2: Conn, r: Result<ReqAddr>) {
    var t := Run(RequestHead, c.inbox, c.room, debug);
    c2 == ConnAfter(c, t) && r == Verdict(t.end)
  }

  /** `next_request` on c leaves c2 and answers r, as `Run` does from the start. */
  ghost predicate HandshakeEnds(c: Conn, debug: bool, c2: Conn, r: Result<ReqAddr>) {
    var t := Run(MethodHead, c.inbox, c.room, debug);
    c2 == ConnAfter(c, t) && r == Verdict(t.end)
  }

  /** A final reply written on c leaves c2 and answers r. */
  ghost predicate ReplyEnds(c: Conn, code: byte, a: ReqAddr, c2: Conn, r: Result<()>) {
    if !Printable(a) then c2 == c && r == Panicked
    else c2 == c.Written(Reply(code, a)) && r == if |Reply(code, a)| <= c.room then Ok(()) else Err(Io)
  }

  lemma AfterSelection(c: Conn, t: Trace, n: nat)
    requires n + t.consumed <= |c.inbox| && c.room >= 2
    ensures ConnAfter(c, t.After([METHOD_ACCEPTED], n))
            == ConnAfter(Conn(c.inbox[n..], c.room - 2, c.sent + METHOD_ACCEPTED), t)
  {
    FlattenConcat([METHOD_ACCEPTED], t.attempted);
    OneMessage(METHOD_ACCEPTED, c.room);
    hide Flatten, Emit;
    var said := Flatten(t.attempted);
    assert Take(METHOD_ACCEPTED + said, c.room) == METHOD_ACCEPTED + Take(said, c.room - 2);
    assert c.sent + (METHOD_ACCEPTED + Take(said, c.room - 2)) == c.sent + METHOD_ACCEPTED + Take(said, c.room - 2);
    assert c.inbox[n..][t.consumed..] == c.inbox[n + t.consumed..];
  }

  /** Negotiation and request together are the handshake. */
  lemma HandshakeCases(c: Conn, debug: bool, d: Conn, r: Result<()>, e: Conn, q: Result<ReqAddr>)
    requires NegotiationEnds(c, debug, d, r)
    requires r.Ok? ==> RequestEnds(d, debug, e, q)
    ensures r.Ok? ==> HandshakeEnds(c, debug, e, q)
    ensures r.Err? ==> HandshakeEnds(c, debug, d, Err(r.error))
  {
    NegotiationDecides(c.inbox, c.room, debug);
    hide Run;
    if r.Ok? {
      var t := Run(RequestHead, d.inbox, d.room, debug);
      var n := 2 + c.inbox[1] as int;
      AfterSelection(c, t, n);
    }
  }

  lemma AfterWaiting(c: Conn, t: Trace)
    requires t.consumed <= |c.inbox| && t.attempted == [] && !t.end.Finished?
    ensures ConnAfter(c, t) == Conn([], c.room, c.sent)
  {
    assert c.sent + [] == c.sent;
  }

  lemma AfterSilence(c: Conn, t: Trace)
    requires t.consumed <= |c.inbox| && t.attempted == [] && t.end.Finished?
    ensures ConnAfter(c, t) == Conn(c.inbox[t.consumed..], c.room, c.sent)
  {
    assert c.sent + [] == c.sent;
  }

  lemma AfterMessage(c: Conn, t: Trace, message: seq<byte>)
    requires t.consumed <= |c.inbox| && t.attempted == [message] && t.end.Finished?
    ensures ConnAfter(c, t) == Conn(c.inbox[t.consumed..], c.room, c.sent).Written(message)
  {
    OneMessage(message, c.room);
  }

  lemma AfterTwo(c: Conn, t: Trace)
    requires t.consumed <= |c.inbox| && t.attempted == [UNSUPPORTED_TYPE, UNSUPPORTED_TYPE] && t.end.Finished?
             && c.room >= 10
    ensures ConnAfter(c, t)
            == Conn(c.inbox[t.consumed..], c.room, c.sent).Written(UNSUPPORTED_TYPE).Written(UNSUPPORTED_TYPE)
  {
    TwoReplies(c.room);
    hide Flatten, Emit;
    var u := UNSUPPORTED_TYPE;
    assert c.sent + Take(u + u, c.room) == c.sent + u + Take(u, c.room - 10);
  }

  lemma ListCase(c: Conn, debug: bool, n: nat)
    requires |c.inbox| >= 2 + n && c.inbox[0] == SOCKS5_PROTOCOL && c.inbox[1] == n
    ensures var d := Conn(c.inbox[2..][n..], c.room, c.sent);
            if SOCKS5_NO_AUTH in c.inbox[2..][..n]
            then NegotiationEnds(c, debug, d.Written(METHOD_ACCEPTED), if c.room < 2 then Err(Io) else Ok(()))
            else NegotiationEnds(c, debug, d.Written(METHOD_REJECTED),
                Err(if c.room < 2 then Io else NoSupportedMethod))
  {
    hide Run;
    var list := c.inbox[2..];
    assert list[..n] == c.inbox[2..2 + n] && list[n..] == c.inbox[2 + n..];
    HeadStep(c.inbox, c.room, debug);
    AfterNothing(Run(MethodList(c.inbox[1]), list, c.room, debug), 2);
    ListStep(c.inbox[1], list, c.room, debug);
    if !Greeted(c.inbox) || c.room < 2 {
      var message := if Greeted(c.inbox) then METHOD_ACCEPTED else METHOD_REJECTED;
      AfterMessage(c, Run(MethodHead, c.inbox, c.room, debug), message);
    }
  }

  /** How the negotiation ends, for each way the client can begin. */
  lemma NegotiationCases(c: Conn, debug: bool)
    ensures |c.inbox| < 2 ==> NegotiationEnds(c, debug, Conn([], c.room, c.sent), Err(Io))
    ensures |c.inbox| >= 2 && c.inbox[0] != SOCKS5_PROTOCOL ==>
              NegotiationEnds(c, debug, Conn(c.inbox[2..], c.room, c.sent), Err(NotSocks5(c.inbox[0])))
    ensures |c.inbox| >= 2 && c.inbox[0] == SOCKS5_PROTOCOL && |c.inbox[2..]| < c.inbox[1] as int ==>
              NegotiationEnds(c, debug, Conn([], c.room, c.sent), Err(Io))
    ensures |c.inbox| >= 2 && c.inbox[0] == SOCKS5_PROTOCOL && |c.inbox[2..]| >= c.inbox[1] as int ==>
              var d := Conn(c.inbox[2..][c.inbox[1] as int..], c.room, c.sent);
              if SOCKS5_NO_AUTH in c.inbox[2..][..c.inbox[1] as int]
              then NegotiationEnds(c, debug, d.Written(METHOD_ACCEPTED), if c.room < 2 then Err(Io) else Ok(()))
              else NegotiationEnds(c, debug, d.Written(METHOD_REJECTED),
                  Err(if c.room < 2 then Io else NoSupportedMethod))
  {
    hide Run;
    var t := Run(MethodHead, c.inbox, c.room, debug);
    if |c.inbox| < 2 {
      RunAtOnce(MethodHead, c.inbox, [], c.room, debug);
      AfterWaiting(c, t);
    } else {
      HeadStep(c.inbox, c.room, debug);
      if c.inbox[0] != SOCKS5_PROTOCOL {
        AfterSilence(c, t);
      } else {
        var n: nat := c.inbox[1];
        var list := c.inbox[2..];
        AfterNothing(Run(MethodList(c.inbox[1]), list, c.room, debug), 2);
        assert list[..if n <= |list| then n else 0] == c.inbox[2..2 + if n <= |list| then n else 0];
        if |list| < n {
          RunAtOnce(MethodList(c.inbox[1]), list, [], c.room, debug);
          AfterWaiting(c, t);
        } else {
          ListCase(c, debug, n);
        }
      }
    }
  }

  /** How a request ends that is not an address of a known type. */
  lemma HeadCases(c: Conn, debug: bool)
    ensures |c.inbox| < 5 ==> RequestEnds(c, debug, Conn([], c.room, c.sent), Err(Io))
    ensures |c.inbox| >= 5 ==>
              var d := Conn(c.inbox[5..], c.room, c.sent);
              && (c.inbox[0] != SOCKS5_PROTOCOL ==> RequestEnds(c, debug, d, Err(NotSocks5(c.inbox[0]))))
              && (c.inbox[0] == SOCKS5_PROTOCOL && c.inbox[1] != SOCKS5_CMD_CONNECT ==>
                    RequestEnds(c, debug, d.Written(UNSUPPORTED_COMMAND), Err(if c.room < 10 then Io else NotConnect)))
              && (ConnectHead(c.inbox) && !KnownType(c.inbox[3]) ==>
                    if c.room < 10 then RequestEnds(c, debug, d.Written(UNSUPPORTED_TYPE), Err(Io))
                    else RequestEnds(c, debug, d.Written(UNSUPPORTED_TYPE).Written(UNSUPPORTED_TYPE),
                                     Err(if c.room < 20 then Io else InvalidSocks5AddrType)))
  {
    RequestDecides(c.inbox, c.room, debug);
    hide Run;
    var t := Run(RequestHead, c.inbox, c.room, debug);
    if |c.inbox| < 5 {
      AfterWaiting(c, t);
    } else if t.attempted == [] {
      if t.end.Finished? {
        AfterSilence(c, t);
      }
    } else if |t.attempted| == 1 {
      AfterMessage(c, t, t.attempted[0]);
    } else {
      AfterTwo(c, t);
    }
  }

  /** The second read of `get_request`. */
  function TailLength(atyp: byte, first: byte): nat {
    if atyp == ATYP_IPV4 then 5 else if atyp == ATYP_IPV6 then 17 else first as int + 2
  }

  /** What `get_request` parses once it has read the tail. */
  function ParseTail(atyp: byte, first: byte, tail: seq<byte>): Result<ReqAddr> {
    if atyp == ATYP_IPV4 then ParseAddressV4([first] + tail)
    else if atyp == ATYP_IPV6 then ParseAddressV6([first] + tail)
    else ParseDomain(first, tail)
  }

  lemma TailRead(request: seq<byte>)
    requires ConnectHead(request) && KnownType(request[3])
    ensures var rest := request[5..];
            var tail := TailLength(request[3], request[4]);
            var read := ReadAddress(request[3..]);
            if tail > 255 then read.AddressRead? && read.result == Panicked
            else if |rest| < tail then read == Incomplete
            else
              && read == AddressRead(ParseTail(request[3], request[4], rest[..tail]), rest[tail..])
              && !read.result.Panicked?
              && (read.result.Err? ==> read.result == Err(Utf8Error))
  {
    hide ValidUtf8;
    var bs := request[3..];
    var rest := request[5..];
    var tail := TailLength(request[3], request[4]);
    if tail <= 255 && |rest| >= tail {
      TailSlices(request, tail);
    }
  }

  /** How a request for an address of a known type ends; tail is what the second read asks for. */
  lemma AddressCases(c: Conn, debug: bool)
    requires ConnectHead(c.inbox) && KnownType(c.inbox[3])
    ensures var rest := c.inbox[5..];
            var tail := TailLength(c.inbox[3], c.inbox[4]);
            if tail > 255 then RequestEnds(c, debug, Conn(rest, c.room, c.sent), Panicked)
            else if |rest| < tail then RequestEnds(c, debug, Conn([], c.room, c.sent), Err(Io))
            else
              var d := Conn(rest[tail..], c.room, c.sent);
              var r := ParseTail(c.inbox[3], c.inbox[4], rest[..tail]);
              if r.Ok? then RequestEnds(c, debug, d, r)
              else if debug then RequestEnds(c, debug, d, Panicked)
              else r.Err? && RequestEnds(c, debug, d.Written(UNSUPPORTED_TYPE), if c.room < 10 then Err(Io) else r)
  {
    TailRead(c.inbox);
    RequestDecides(c.inbox, c.room, debug);
    hide Run, ReadAddress, ParseTail;
    var t := Run(RequestHead, c.inbox, c.room, debug);
    if t.attempted == [] {
      if t.end.Finished? {
        AfterSilence(c, t);
      } else {
        AfterWaiting(c, t);
      }
    } else {
      AfterMessage(c, t, UNSUPPORTED_TYPE);
    }
  }

  lemma ReplyLengths()
    ensures |UNSUPPORTED_TYPE| == 10 && |UNSUPPORTED_COMMAND| == 10
  {
  }

  // -- Laying out a reply ----------------------------------------------------------------------

  /** The part of an encoded address in front of the port. */
  function Host(a: ReqAddr): seq<byte>
    requires Encodable(a)
  {
    match a
    case IP(V4(octets, _)) => [ATYP_IPV4] + octets
    case IP(V6(segments, _)) => [ATYP_IPV6] + SegmentBytes(segments)
    case Domain(name, _) => [ATYP_DOMAIN, |name|] + name
  }

  lemma ReplyParts(code: byte, a: ReqAddr)
    requires Encodable(a)
    ensures Reply(code, a) == [SOCKS5_PROTOCOL, code, 0] + Host(a) + PortBytes(a.Port())
  {
    assert Host(a) + PortBytes(a.Port()) == Encode(a);
    hide Host, Encode, PortBytes;
  }

  /** The port completes the reply. */
  method PutPort(resp: array<byte>, pos: nat, code: byte, addr: ReqAddr)
    requires Encodable(addr) && pos == 3 + |Host(addr)| && pos + 1 < resp.Length
    requires resp[..3] == [SOCKS5_PROTOCOL, code, 0] && resp[3..pos] == Host(addr)
    modifies resp
    ensures resp[0..pos + 2] == Reply(code, addr)
  {
    ReplyParts(code, addr);
    hide Host, Encode, Reply, High, Low;
    ghost var front := resp[..pos];
    assert front == resp[..3] + resp[3..pos];
    resp[pos], resp[pos + 1] := High(addr.Port()), Low(addr.Port());
    assert resp[..pos] == front;
    assert resp[0..pos + 2] == resp[..pos] + [resp[pos], resp[pos + 1]];
  }

  lemma SegmentAt(segments: Segments, k: nat)
    requires k < 8
    ensures SegmentBytes(segments)[..2 * k + 2]
            == SegmentBytes(segments)[..2 * k] + [High(segments[k]), Low(segments[k])]
  {
    hide High, Low;
  }

  method PutSegments(resp: array<byte>, segments: Segments) returns (pos: nat)
    requires resp.Length == 261
    modifies resp
    ensures pos == 20 && resp[4..20] == SegmentBytes(segments)
    ensures forall i :: 0 <= i < 4 ==> resp[i] == old(resp[i])
  {
    pos := 4;
    for k := 0 to 8
      invariant pos == 4 + 2 * k
      invariant forall i :: 0 <= i < 4 ==> resp[i] == old(resp[i])
      invariant resp[4..pos] == SegmentBytes(segments)[..2 * k]
    {
      SegmentAt(segments, k);
      resp[pos] := High(segments[k]);
      resp[pos + 1] := Low(segments[k]);
      assert resp[4..pos + 2] == resp[4..pos] + [High(segments[k]), Low(segments[k])];
      pos := pos + 2;
    }
  }

  /** `copy_from_slice` into resp[at..]. */
  method PutBytes(resp: array<byte>, at: nat, bytes: seq<byte>)
    requires at + |bytes| <= resp.Length
    modifies resp
    ensures resp[at..at + |bytes|] == bytes
    ensures forall i :: 0 <= i < at ==> resp[i] == old(resp[i])
  {
    forall i | 0 <= i < |bytes| {
      resp[at + i] := bytes[i];
    }
  }

  /** Lays out address type and address from index 3 on; pos is the index behind them, or 0 when the
      one-byte length does not describe the name and copying it panics. */
  method PutHost(resp: array<byte>, addr: ReqAddr) returns (pos: nat)
    requires resp.Length == 261
    modifies resp
    ensures pos == 0 <==> !Encodable(addr)
    ensures pos > 0 ==> pos == 3 + |Host(addr)| <= 260 && resp[3..pos] == Host(addr)
    ensures pos > 0 ==> (pos + 1 < resp.Length <==> Printable(addr))
    ensures resp[..3] == old(resp[..3])
  {
    hide SegmentBytes, ValidUtf8;
    match addr
    case IP(V4(octets, _)) =>
      resp[3] := ATYP_IPV4;
      PutBytes(resp, 4, octets);
      pos := 8;
      assert resp[3..8] == [ATYP_IPV4] + resp[4..8];
    case IP(V6(segments, _)) =>
      resp[3] := ATYP_IPV6;
      pos := PutSegments(resp, segments);
      assert resp[3..20] == [ATYP_IPV6] + resp[4..20];
    case Domain(name, _) =>
      resp[3], resp[4] := ATYP_DOMAIN, |name| % 256;
      pos := 5 + |name| % 256;
      if pos - 5 != |name| {
        return 0;
      }
      PutBytes(resp, 5, name);
      assert resp[3..pos] == [ATYP_DOMAIN, |name|] + resp[5..pos];
  }

  // -- The objects -----------------------------------------------------------------------------


  lemma NegotiationFails(c: Conn, debug: bool, d: Conn, r: Result<()>)
    requires NegotiationEnds(c, debug, d, r) && !r.Ok?
    ensures r.Err?
  {
  }

  class Socks5Connected {
    var stream: TcpStream?
    const debug: bool

    constructor (stream: TcpStream, debug: bool)
      ensures this.stream == stream && this.debug == debug
    {
      this.stream, this.debug := stream, debug;
    }

    method ReadExact(buf: array<byte>, lo: nat, hi: nat) returns (r: Result<()>)
      requires lo <= hi <= buf.Length
      modifies if stream == null then {} else {stream}, buf
      ensures stream == null ==> r == Err(NotConnected)
      ensures stream != null ==>
                && stream.room == old(stream.room) && stream.sent == old(stream.sent)
                && r == (if hi - lo <= |old(stream.inbox)| then Ok(()) else Err(Io))
                && (r.Ok? ==> buf[lo..hi] == old(stream.inbox)[..hi - lo] && buf[..lo] == old(buf[..lo]))
                && stream.inbox == if r.Ok? then old(stream.inbox)[hi - lo..] else []
    {
      if stream == null {
        return Err(NotConnected);
      }
      var ok := stream.ReadExact(buf, lo, hi);
      r := if ok then Ok(()) else Err(Io);
    }

    method WriteAll(bytes: seq<byte>) returns (r: Result<()>)
      modifies if stream == null then {} else {stream}
      ensures stream == null ==> r == Err(NotConnected)
      ensures stream != null ==>
                && stream.Value() == old(stream.Value()).Written(bytes)
                && r == if |bytes| <= old(stream.room) then Ok(()) else Err(Io)
    {
      if stream == null {
        return Err(NotConnected);
      }
      var ok := stream.WriteAll(bytes);
      r := if ok then Ok(()) else Err(Io);
    }

    /** The reply is laid out in a fixed buffer of 261 bytes; a name of 255 bytes or more overruns it. */
    method SendFinalResponse(code: byte, addr: ReqAddr) returns (r: Result<()>)
      modifies if stream == null then {} else {stream}
      ensures stream == null ==> r == if Printable(addr) then Err(NotConnected) else Panicked
      ensures stream != null ==> ReplyEnds(old(stream.Value()), code, addr, stream.Value(), r)
      ensures r.Panicked? <==> addr.Domain? && |addr.name| > 254
    {
      var resp := new byte[256 + 5](_ => 0);
      hide Host, Encode;
      resp[0], resp[1], resp[2] := SOCKS5_PROTOCOL, code, 0;
      var pos := PutHost(resp, addr);
      if pos == 0 || pos + 1 >= resp.Length {
        return Panicked;  // the name's copy_from_slice, or resp[pos + 1] out of bounds
      }
      PutPort(resp, pos, code, addr);
      r := WriteAll(resp[0..pos + 2]);
    }

    method AuthenticateClient() returns (r: Result<()>)
      modifies if stream == null then {} else {stream}
      ensures stream == null ==> r == Err(NotConnected)
      ensures stream != null ==> NegotiationEnds(old(stream.Value()), debug, stream.Value(), r)
    {
      hide NegotiationEnds;
      ghost var c := if stream == null then Conn([], 0, []) else stream.Value();
      NegotiationCases(c, debug);
      var buf := new byte[256](_ => 0);
      r := ReadExact(buf, 0, 2);
      if !r.Ok? {
        return;
      }
      assert buf[0] == buf[0..2][0] && buf[1] == buf[0..2][1];
      var p := buf[0];
      if p != SOCKS5_PROTOCOL {
        return Err(NotSocks5(p));
      }
      var count := buf[1];
      r := ReadExact(buf, 0, count as int);
      if !r.Ok? {
        return;
      }
      if SOCKS5_NO_AUTH !in buf[0..count as int] {
        r := WriteAll([SOCKS5_PROTOCOL, SOCKS5_NO_ACCEPTABLE_METHOD]);
        return if r.Ok? then Err(NoSupportedMethod) else r;
      }
      r := WriteAll([SOCKS5_PROTOCOL, SOCKS5_NO_AUTH]);
    }

    /** The second read of `get_request`, and the parse of what it brings. */
    method ReadTail(buf: array<byte>, atyp: byte, b0: byte) returns (ok: Result<()>, addr: Result<ReqAddr>)
      requires buf.Length == 255 && buf[4] == b0 && KnownType(atyp)
      modifies if stream == null then {} else {stream}, buf
      ensures ok.Ok? || ok.Err?
      ensures stream == null ==> ok == Err(NotConnected) || (ok.Ok? && addr.Panicked?)
      ensures stream != null ==>
                var inbox := old(stream.inbox);
                var tail := TailLength(atyp, b0);
                && stream.room == old(stream.room) && stream.sent == old(stream.sent)
                && if tail > 255 then ok.Ok? && addr == Panicked && stream.inbox == inbox
                   else if |inbox| < tail then ok == Err(Io) && stream.inbox == []
                   else
                     && ok.Ok? && stream.inbox == inbox[tail..]
                     && var r := ParseTail(atyp, b0, inbox[..tail]);
                        addr == if r.Err? && debug then Panicked else r
    {
      hide ParseDomain;
      addr := Panicked;
      if atyp == ATYP_IPV4 {
        ok := ReadExact(buf, 5, 10);
        if ok.Ok? {
          assert buf[4..10] == [b0] + buf[5..10] by { assert buf[..5][4] == b0; }
          addr := ParseAddressV4(buf[4..10]);
        }
      } else if atyp == ATYP_IPV6 {
        ok := ReadExact(buf, 5, 22);
        if ok.Ok? {
          assert buf[4..22] == [b0] + buf[5..22] by { assert buf[..5][4] == b0; }
          addr := ParseAddressV6(buf[4..22]);
        }
      } else {
        var length := b0 as int;
        if length + 2 > buf.Length {
          return Ok(()), Panicked;  // &mut buf[0..addr_len + 2]
        }
        ok := ReadExact(buf, 0, length + 2);
        if ok.Ok? {
          addr := ParseDomain(length, buf[0..length + 2]);
          if debug && !addr.Ok? {
            addr := Panicked;  // r.as_ref().unwrap()
          }
        }
      }
    }

    method GetRequest() returns (r: Result<ReqAddr>)
      modifies if stream == null then {} else {stream}
      ensures stream == null ==> r == Err(NotConnected)
      ensures stream != null ==> RequestEnds(old(stream.Value()), debug, stream.Value(), r)
    {
      hide RequestEnds, ParseAddressV4, ParseAddressV6, ParseDomain, Reply;
      ghost var c := if stream == null then Conn([], 0, []) else stream.Value();
      HeadCases(c, debug);
      ReplyLengths();
      var buf := new byte[255](_ => 0);
      var ok := ReadExact(buf, 0, 5);
      if !ok.Ok? {
        return Err(ok.error);
      }
      assert buf[0..5] == c.inbox[..5];
      assert forall i :: 0 <= i < 5 ==> buf[i] == buf[0..5][i];
      var p := buf[0];
      if p != SOCKS5_PROTOCOL {
        return Err(NotSocks5(p));
      }
      var cmd := buf[1];
      if cmd != SOCKS5_CMD_CONNECT {
        ok := SendFinalResponse(COMMAND_NOT_SUPPORTED, DEFAULT_ADDR);
        return if ok.Ok? then Err(NotConnect) else Err(ok.error);
      }
      var atyp := buf[3];
      var b0 := buf[4];
      var addr: Result<ReqAddr>;
      if atyp == ATYP_IPV4 || atyp == ATYP_IPV6 || atyp == ATYP_DOMAIN {
        AddressCases(c, debug);
        ok, addr := ReadTail(buf, atyp, b0);
        if !ok.Ok? {
          return Err(ok.error);
        }
      } else {
        ok := SendFinalResponse(ADDRESS_TYPE_NOT_SUPPORTED, DEFAULT_ADDR);
        if !ok.Ok? {
          return Err(ok.error);
        }
        addr := Err(InvalidSocks5AddrType);
      }
      if addr.Err? {
        ok := SendFinalResponse(ADDRESS_TYPE_NOT_SUPPORTED, DEFAULT_ADDR);
        if !ok.Ok? {
          return Err(ok.error);
        }
      }
      return addr;
    }

    method NextRequest() returns (r: Result<ReqAddr>)
      modifies if stream == null then {} else {stream}
      ensures stream == null ==> r == Err(NotConnected)
      ensures stream != null ==> HandshakeEnds(old(stream.Value()), debug, stream.Value(), r)
    {
      hide NegotiationEnds, RequestEnds, HandshakeEnds;
      ghost var c := if stream == null then Conn([], 0, []) else stream.Value();
      var ok := AuthenticateClient();
      ghost var d := if stream == null then Conn([], 0, []) else stream.Value();
      if !ok.Ok? {
        if stream != null {
          NegotiationFails(c, debug, d, ok);
          HandshakeCases(c, debug, d, ok, d, Panicked);
        }
        return Err(ok.error);
      }
      r := GetRequest();
      if stream != null {
        HandshakeCases(c, debug, d, ok, stream.Value(), r);
      }
    }

    /** Consumes the client in the source: no later call exists. */
    method Abort(err: OutgoingError, req: ReqAddr) returns (r: Result<()>)
      modifies if stream == null then {} else {stream}
      ensures stream == null ==> r == if Printable(req) then Err(NotConnected) else Panicked
      ensures stream != null ==> ReplyEnds(old(stream.Value()), GetReason(err), req, stream.Value(), r)
      ensures stream != null && Printable(req) && old(stream.room) >= 2 ==>
                && old(stream.sent) + [5] < stream.sent
                && stream.sent[|old(stream.sent)| + 1] == match err
                                                          case GeneralFailure => 1
                                                          case NetworkUnreachable => 3
                                                          case HostUnreachable => 4
                                                          case ConnectionRefused => 5
                                                          case TimedOut => 6
    {
      var reason := GetReason(err);
      r := SendFinalResponse(reason, req);
    }

    /** Hands the stream over once the Success reply is out; after that there is none. */
    method ReadyForConnect(req: ReqAddr) returns (r: Result<TcpStream>)
      modifies this`stream, if stream == null then {} else {stream}
      ensures old(stream) == null ==> stream == null && r == if Printable(req) then Err(NotConnected) else Panicked
      ensures old(stream) != null ==>
                && (r.Ok? ==> r.value == old(stream) && stream == null)
                && (!r.Ok? ==> stream == old(stream))
                && ReplyEnds(old(stream.Value()), SUCCESS, req, old(stream).Value(),
                             if r.Ok? then Ok(()) else if r.Err? then Err(r.error) else Panicked)
    {
      var ok := SendFinalResponse(SUCCESS, req);
      match ok
      case Err(e) => r := Err(e);
      case Panicked => r := Panicked;
      case Ok(_) =>
        var taken := stream;
        stream := null;
        r := Ok(taken);
    }
  }

  // -- Ownership of the stream -----------------------------------------------------------------

  datatype Owned = Has(conn: Conn) | Nothing

  datatype Call =
    | CallNextRequest
    | CallGetRequest
    | CallReadyForConnect(req: ReqAddr)
    | CallAbort(err: OutgoingError, req: ReqAddr)

  /** The stream the handshake owns, the one it handed over, and the answers given so far. */
  datatype Holder = Holder(own: Owned, tunnel: Owned, answers: seq<Result<()>>)

  function Unit(r: Result<ReqAddr>): Result<()> {
    match r
    case Ok(_) => Ok(())
    case Err(e) => Err(e)
    case Panicked => Panicked
  }

  /** One call of a method of `Socks5Connected`, on values. */
  function Perform(h: Holder, call: Call, debug: bool): Holder {
    match h.own
    case Nothing =>
      var panics := (call.CallReadyForConnect? || call.CallAbort?) && !Printable(call.req);
      h.(answers := h.answers + [if panics then Panicked else Err(NotConnected)])
    case Has(c) =>
      if call.CallNextRequest? || call.CallGetRequest? then
        var t := Run(if call.CallNextRequest? then MethodHead else RequestHead, c.inbox, c.room, debug);
        Holder(Has(ConnAfter(c, t)), h.tunnel, h.answers + [Unit(Verdict(t.end))])
      else if !Printable(call.req) then h.(answers := h.answers + [Panicked])
      else
        var reply := Reply(if call.CallAbort? then GetReason(call.err) else SUCCESS, call.req);
        var w := c.Written(reply);
        if |reply| > c.room then Holder(Has(w), h.tunnel, h.answers + [Err(Io)])
        else if call.CallAbort? then Holder(Has(w), h.tunnel, h.answers + [Ok(())])
        else Holder(Nothing, Has(w), h.answers + [Ok(())])
  }

  function PerformAll(h: Holder, calls: seq<Call>, debug: bool): Holder
    decreases |calls|
  {
    if calls == [] then h else PerformAll(Perform(h, calls[0], debug), calls[1..], debug)
  }

  /** An answer to a call on a client without a stream: it says so, or laying out the reply panicked. */
  predicate Turned(r: Result<()>) { r == Err(NotConnected) || r == Panicked }

  /** After the hand-over no call, in any order and number, reads from the tunnel or adds to it, and each
      is answered with NotConnected, or panics laying out a reply that does not fit its buffer. */
  lemma {:induction false} HandoverIsFinal(h: Holder, calls: seq<Call>, debug: bool)
    requires h.own.Nothing?
    ensures var e := PerformAll(h, calls, debug);
            && e.own == Nothing && e.tunnel == h.tunnel
            && h.answers <= e.answers && |e.answers| == |h.answers| + |calls|
            && forall i :: |h.answers| <= i < |e.answers| ==> Turned(e.answers[i])
    decreases |calls|
  {
    if calls != [] {
      var next := Perform(h, calls[0], debug);
      HandoverIsFinal(next, calls[1..], debug);
      assert next.answers[|h.answers|] == PerformAll(h, calls, debug).answers[|h.answers|];
    }
  }

  predicate EndsIn(sent: seq<byte>, reply: seq<byte>) {
    |reply| <= |sent| && sent[|sent| - |reply|..] == reply
  }

  /** Of calls answered so, the k-th handed over the stream: what had been sent on it by then ends in a complete
      Success reply, and the calls behind were turned away. */
  predicate HandedOverAt(calls: seq<Call>, answers: seq<Result<()>>, k: int, sent: seq<byte>) {
    && |answers| == |calls| && 0 <= k < |calls|
    && calls[k].CallReadyForConnect? && Printable(calls[k].req) && answers[k] == Ok(())
    && (forall i :: k < i < |answers| ==> Turned(answers[i]))
    && EndsIn(sent, Reply(SUCCESS, calls[k].req))
  }

  lemma OneCall(h: Holder, call: Call, debug: bool)
    requires h.own.Has? && h.tunnel.Nothing?
    ensures var next := Perform(h, call, debug);
            && |next.answers| == |h.answers| + 1 && h.answers <= next.answers
            && (next.own.Has? ==> next.tunnel.Nothing?)
            && (next.own.Nothing? ==>
                  && call.CallReadyForConnect? && Printable(call.req) && next.answers[|h.answers|] == Ok(())
                  && next.tunnel.Has? && EndsIn(next.tunnel.conn.sent, Reply(SUCCESS, call.req)))
  {
    hide Run, Reply;
  }

  lemma {:induction false} OneOwnerFrom(h: Holder, calls: seq<Call>, debug: bool) returns (k: nat)
    requires h.own.Has? && h.tunnel.Nothing?
    ensures var e := PerformAll(h, calls, debug);
            && (e.own.Has? <==> e.tunnel.Nothing?)
            && h.answers <= e.answers && |e.answers| == |h.answers| + |calls|
            && (e.tunnel.Has? ==> HandedOverAt(calls, e.answers[|h.answers|..], k, e.tunnel.conn.sent))
    decreases |calls|
  {
    hide Reply, Perform, EndsIn;
    k := 0;
    if calls != [] {
      var next := Perform(h, calls[0], debug);
      var e := PerformAll(next, calls[1..], debug);
      OneCall(h, calls[0], debug);
      if next.own.Has? {
        var j := OneOwnerFrom(next, calls[1..], debug);
        k := j + 1;
        assert e.answers[|h.answers|..][1..] == e.answers[|next.answers|..];
      } else {
        HandoverIsFinal(next, calls[1..], debug);
        assert e.answers[|h.answers|] == next.answers[|h.answers|];
      }
    }
  }

  /** Over any sequence of calls the stream has one owner; if it was handed over, some call did it behind a
      complete Success reply, and nothing the handshake is asked to do afterwards follows it into the tunnel. */
  lemma OneOwner(c: Conn, calls: seq<Call>, debug: bool)
    ensures var e := PerformAll(Holder(Has(c), Nothing, []), calls, debug);
            && (e.own.Has? <==> e.tunnel.Nothing?)
            && (e.tunnel.Has? ==> exists k :: HandedOverAt(calls, e.answers, k, e.tunnel.conn.sent))
  {
    var k := OneOwnerFrom(Holder(Has(c), Nothing, []), calls, debug);
    hide PerformAll, HandedOverAt;
  }

  ghost function ValueOf(stream: TcpStream?): Owned
    reads stream
  {
    if stream == null then Nothing else Has(stream.Value())
  }

  /** What stands in a client and next to it, as a value. */
  ghost function Held(client: Socks5Connected, tunnel: TcpStream?, answers: seq<Result<()>>): Holder
    reads client, client.stream, tunnel
  {
    Holder(ValueOf(client.stream), ValueOf(tunnel), answers)
  }

  /** One call on the object; tunnel is the stream that has been handed over. */
  method Execute(client: Socks5Connected, tunnel: TcpStream?, answers: seq<Result<()>>, call: Call)
    returns (tunnel2: TcpStream?, answers2: seq<Result<()>>)
    requires client.stream == null || tunnel == null
    modifies client`stream, if client.stream == null then {} else {client.stream}
    ensures Held(client, tunnel2, answers2) == Perform(old(Held(client, tunnel, answers)), call, client.debug)
    ensures old(client.stream) == null ==> client.stream == null && tunnel2 == tunnel
    ensures old(client.stream) != null ==>
              (client.stream == old(client.stream) && tunnel2 == null)
                  || (client.stream == null && tunnel2 == old(client.stream))
  {
    hide Run, Reply;
    tunnel2 := tunnel;
    var r: Result<()>;
    match call {
      case CallNextRequest =>
        var a := client.NextRequest();
        r := Unit(a);
      case CallGetRequest =>
        var a := client.GetRequest();
        r := Unit(a);
      case CallAbort(err, req) =>
        r := client.Abort(err, req);
      case CallReadyForConnect(req) =>
        var t := client.ReadyForConnect(req);
        match t
        case Ok(stream) =>
          tunnel2 := stream;
          r := Ok(());
        case Err(e) => r := Err(e);
        case Panicked => r := Panicked;
    }
    answers2 := answers + [r];
  }

  /** Any sequence of calls on a client. Without a stream it turns them all away, and as nothing but the client
      may change, none touches a stream that was handed over. With one, the stream stays where it is or is handed
      over, once. */
  method ExecuteAll(client: Socks5Connected, calls: seq<Call>) returns (tunnel: TcpStream?, answers: seq<Result<()>>)
    modifies client`stream, if client.stream == null then {} else {client.stream}
    ensures Held(client, tunnel, answers) == PerformAll(old(Held(client, null, [])), calls, client.debug)
    ensures old(client.stream) == null ==>
              && client.stream == null && tunnel == null && |answers| == |calls|
              && forall i :: 0 <= i < |answers| ==> Turned(answers[i])
    ensures old(client.stream) != null ==>
              (client.stream == old(client.stream) && tunnel == null)
                  || (client.stream == null && tunnel == old(client.stream))
    ensures tunnel != null ==> exists k :: HandedOverAt(calls, answers, k, tunnel.sent)
  {
    ghost var start := Held(client, null, []);
    tunnel, answers := null, [];
    for k := 0 to |calls|
      invariant client.stream == null || tunnel == null
      invariant old(client.stream) == null ==> client.stream == null && tunnel == null
      invariant old(client.stream) != null ==>
                  (client.stream == old(client.stream) && tunnel == null)
                      || (client.stream == null && tunnel == old(client.stream))
      invariant PerformAll(Held(client, tunnel, answers), calls[k..], client.debug)
                == PerformAll(start, calls, client.debug)
    {
      hide Perform;
      assert calls[k..][0] == calls[k] && calls[k..][1..] == calls[k + 1..];
      tunnel, answers := Execute(client, tunnel, answers, calls[k]);
    }
    if start.own.Nothing? {
      HandoverIsFinal(start, calls, client.debug);
    } else {
      OneOwner(start.own.conn, calls, client.debug);
    }
  }
}
