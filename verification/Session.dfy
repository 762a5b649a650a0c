/** src/client_manager.rs: one client from its first byte to the end of its tunnel. */
module Session {
  import opened Bytes
  import opened Streams
  import opened ReqAddrs
  import opened Codec
  import opened Handshake
  import opened Requests
  import opened Wire
  import opened Incoming
  import opened Relay

  /** What the outgoing side answers when asked to connect. */
  datatype Dial = Connected(fromTarget: seq<byte>) | Refused(err: OutgoingError)

  /** Everything outside the proxy: whether the configured outgoing type is supported, how the connect
      ends, whether the socket addresses can be looked up, and how the tunnel is scheduled. */
  datatype World = World(supported: bool, dial: Dial, addressed: bool, schedule: seq<Event>)

  datatype Tunnel = Closed | Open(pair: Pair, unused: bool)

  /** A session: the messages to the client whose writing was started, the addresses dialled, and the
      tunnel. */
  datatype Record = Record(attempted: seq<seq<byte>>, dialed: seq<ReqAddr>, tunnel: Tunnel) {
    function ToClient(room: nat): seq<byte> {
      Take(Flatten(attempted), room) + if tunnel.Open? then tunnel.pair.o2i.delivered else []
    }

    function ToTarget(): seq<byte> {
      if tunnel.Open? then tunnel.pair.i2o.delivered else []
    }
  }

  /** The final reply, if it can be laid out at all. */
  function Answer(code: byte, a: ReqAddr): seq<seq<byte>> {
    if Printable(a) then [Reply(code, a)] else []
  }

  function Serve(input: seq<byte>, room: nat, debug: bool, w: World): Record {
    var t := Run(MethodHead, input, room, debug);
    if !Accepts(t.end) then Record(t.attempted, [], Closed)
    else
      var a := t.end.result.value;
      if !w.supported then Record(t.attempted + Answer(GENERAL_PROXY_FAILURE, a), [], Closed)
      else
        match w.dial
        case Refused(e) => Record(t.attempted + Answer(GetReason(e), a), [a], Closed)
        case Connected(fromTarget) =>
          var said := t.attempted + Answer(SUCCESS, a);
          if !Printable(a) || |Flatten(said)| > room then Record(said, [a], Closed)
          else
            var begin := Pair(Begin(input[t.consumed..]), Begin(fromTarget));
            Record(said, [a], Open(if w.addressed then begin.Steps(w.schedule) else begin, !w.addressed))
  }

  /** Every accepted stream, taken apart: greeting, request and rest, and the session it gets. */
  lemma Accepted(input: seq<byte>, room: nat, debug: bool)
    returns (methods: seq<byte>, reserved: byte, a: ReqAddr, rest: seq<byte>)
    requires Accepts(Run(MethodHead, input, room, debug).end)
    ensures |methods| <= 255 && SOCKS5_NO_AUTH in methods && Encodable(a) && Readable(a) && room >= 2
    ensures input == Greeting(methods) + Connect(reserved, a) + rest
    ensures Printable(AsRead(a))
    ensures var t := Run(MethodHead, input, room, debug);
            t == Trace([METHOD_ACCEPTED], |input| - |rest|, Finished(Ok(AsRead(a)))) && input[t.consumed..] == rest
  {
    methods, reserved, a, rest := AcceptedIsWellFormed(input, room, debug);
    hide Run, Encode;
    assert input[|input| - |rest|..] == rest;
  }

  /** What the final reply to a well-formed request says. */
  function ReplyCode(w: World): byte {
    if !w.supported then GENERAL_PROXY_FAILURE
    else if w.dial.Refused? then GetReason(w.dial.err)
    else SUCCESS
  }

  /** The session of a well-formed client, for every world. */
  function Served(a: ReqAddr, rest: seq<byte>, room: nat, w: World): Record
    requires Readable(a)
  {
    var b := AsRead(a);
    var said := [METHOD_ACCEPTED, Reply(ReplyCode(w), b)];
    if !w.supported then Record(said, [], Closed)
    else if w.dial.Refused? || 2 + |said[1]| > room then Record(said, [b], Closed)
    else
      var begin := Pair(Begin(rest), Begin(w.dial.fromTarget));
      Record(said, [b], Open(if w.addressed then begin.Steps(w.schedule) else begin, !w.addressed))
  }

  lemma ServeAccepted(input: seq<byte>, room: nat, debug: bool, w: World, a: ReqAddr, rest: seq<byte>)
    requires Readable(a) && |rest| <= |input| && room >= 2
    requires Run(MethodHead, input, room, debug) == Trace([METHOD_ACCEPTED], |input| - |rest|, Finished(Ok(AsRead(a))))
    requires input[|input| - |rest|..] == rest
    ensures Serve(input, room, debug, w) == Served(a, rest, room, w)
  {
    hide Run, Encode, Pair.Steps;
    var b := AsRead(a);
    var reply := Reply(ReplyCode(w), b);
    assert [METHOD_ACCEPTED] + [reply] == [METHOD_ACCEPTED, reply];
    OneMessage(reply, room);
    FlattenConcat([METHOD_ACCEPTED], [reply]);
    OneMessage(METHOD_ACCEPTED, room);
  }

  // -- The transcript --------------------------------------------------------------------------

  /** The request of a greeted client asks for CONNECT to an address of a type the proxy does not know. */
  predicate UnknownTypeRequest(input: seq<byte>) {
    Greeted(input) && ConnectHead(RequestBytes(input)) && !KnownType(RequestBytes(input)[3])
  }

  predicate IsReply(message: seq<byte>) {
    |message| >= 4 && message[0] == SOCKS5_PROTOCOL && message[2] == 0 && Decode(message[3..]).Decoded?
        && Decode(message[3..]).rest == []
  }

  /** What can have been said behind the method selection. */
  predicate RequestSaid(said: seq<seq<byte>>) {
    said == [] || said == [UNSUPPORTED_COMMAND] || said == [UNSUPPORTED_TYPE]
        || said == [UNSUPPORTED_TYPE, UNSUPPORTED_TYPE]
  }

  lemma UnknownIff(request: seq<byte>)
    requires ConnectHead(request)
    ensures ReadAddress(request[3..]).UnknownType? <==> !KnownType(request[3])
  {
    hide ParseAddressV4, ParseAddressV6, ParseDomain;
  }

  lemma DecidedSays(request: seq<byte>, t: Trace, room: nat, debug: bool)
    requires Decided(request, t, room, debug)
    ensures RequestSaid(t.attempted)
    ensures Accepts(t.end) ==> t.attempted == []
    ensures |t.attempted| == 2 <==> ConnectHead(request) && !KnownType(request[3]) && room >= 10
  {
    hide ReadAddress, Reply;
    if ConnectHead(request) {
      UnknownIff(request);
    }
  }

  lemma RequestSays(request: seq<byte>, room: nat, debug: bool)
    ensures var t := Run(RequestHead, request, room, debug);
            && RequestSaid(t.attempted)
            && (Accepts(t.end) ==> t.attempted == [])
            && (|t.attempted| == 2 <==> ConnectHead(request) && !KnownType(request[3]) && room >= 10)
  {
    hide Run, Decided;
    RequestDecides(request, room, debug);
    DecidedSays(request, Run(RequestHead, request, room, debug), room, debug);
  }

  lemma GreetedSays(input: seq<byte>, t: Trace, u: Trace, room: nat)
    requires Greeted(input) && room >= 2 && t == u.After([METHOD_ACCEPTED], 2 + input[1] as int)
    requires RequestSaid(u.attempted) && (Accepts(u.end) ==> u.attempted == [])
    requires |u.attempted| == 2
             <==> ConnectHead(RequestBytes(input)) && !KnownType(RequestBytes(input)[3]) && room - 2 >= 10
    ensures RequestSaid(u.attempted) && t.attempted == [METHOD_ACCEPTED] + u.attempted
    ensures Accepts(t.end) ==> t.attempted == [METHOD_ACCEPTED]
    ensures |t.attempted| == 3 <==> UnknownTypeRequest(input) && room >= 12
  {
    hide Greeted, ConnectHead, Reply;
  }

  lemma NothingSaid(input: seq<byte>, t: Trace, room: nat)
    requires !(Greeted(input) && room >= 2)
    requires if !Greeted(input) then (t.attempted == [] || t.attempted == [METHOD_REJECTED]) && !Accepts(t.end)
             else t == Trace([METHOD_ACCEPTED], 2 + input[1] as int, BROKEN)
    ensures RequestSaid([]) && !Accepts(t.end) && |t.attempted| <= 1
    ensures Greeted(input) ==> t.attempted == [METHOD_ACCEPTED] + []
    ensures !(UnknownTypeRequest(input) && room >= 12)
  {
    hide Greeted, ConnectHead, Reply;
    assert [METHOD_ACCEPTED] + [] == [METHOD_ACCEPTED];
  }

  /** What the handshake can have said. */
  lemma HandshakeSays(input: seq<byte>, room: nat, debug: bool) returns (said: seq<seq<byte>>)
    ensures RequestSaid(said)
    ensures var t := Run(MethodHead, input, room, debug);
            && (t.attempted == [] || t.attempted == [METHOD_REJECTED]
                || (Greeted(input) && t.attempted == [METHOD_ACCEPTED] + said))
            && (Accepts(t.end) ==> t.attempted == [METHOD_ACCEPTED])
            && (|t.attempted| == 3 <==> UnknownTypeRequest(input) && room >= 12)
  {
    hide *;
    NegotiationDecides(input, room, debug);
    said := [];
    if Greeted(input) && room >= 2 {
      RequestSays(RequestBytes(input), room - 2, debug);
      said := Run(RequestHead, RequestBytes(input), room - 2, debug).attempted;
      GreetedSays(input, Run(MethodHead, input, room, debug), Run(RequestHead, RequestBytes(input), room - 2, debug),
          room);
    } else {
      NothingSaid(input, Run(MethodHead, input, room, debug), room);
    }
  }

  lemma ReplyIsReply(code: byte, a: ReqAddr)
    requires Encodable(a)
    ensures IsReply(Reply(code, a)) && Reply(code, a)[1] == code
  {
    assert Reply(code, a)[3..] == Encode(a) + [];
    DecodeEncode(a, []);
  }

  predicate Safe(input: seq<byte>, room: nat, w: World, s: Record) {
    && (s.attempted == [] || s.attempted == [METHOD_REJECTED]
        || (s.attempted[0] == METHOD_ACCEPTED && Greeted(input)
            && forall i :: 1 <= i < |s.attempted| ==> IsReply(s.attempted[i])))
    && (forall i :: 1 <= i < |s.attempted| && s.attempted[i][1] == SUCCESS ==> w.supported && w.dial.Connected?)
    && (s.tunnel.Open? ==>
          |s.attempted| == 2 && s.attempted[1][1] == SUCCESS && |Flatten(s.attempted)| <= room)
    && (s.tunnel.Closed? ==> s.ToTarget() == [] && s.ToClient(room) <= Flatten(s.attempted))
    && (s.tunnel.Open? ==> s.ToClient(room) == Flatten(s.attempted) + s.tunnel.pair.o2i.delivered)
  }

  lemma ClientBytes(s: Record, room: nat)
    ensures s.tunnel.Closed? ==> s.ToClient(room) <= Flatten(s.attempted) && s.ToTarget() == []
    ensures s.tunnel.Open? && |Flatten(s.attempted)| <= room ==>
              s.ToClient(room) == Flatten(s.attempted) + s.tunnel.pair.o2i.delivered
  {
    hide Flatten;
    assert Take(Flatten(s.attempted), room) + [] == Take(Flatten(s.attempted), room);
  }

  lemma ServedIsSafe(input: seq<byte>, room: nat, w: World, a: ReqAddr, rest: seq<byte>)
    requires Readable(a) && Greeted(input) && room >= 2
    ensures Safe(input, room, w, Served(a, rest, room, w))
  {
    var b := AsRead(a);
    assert Printable(b);
    hide AsRead, IsReply, Greeted, Flatten, Emit, Reply, Take, Pair.Steps;
    var code := ReplyCode(w);
    var reply := Reply(code, b);
    ReplyIsReply(code, b);
    OneMessage(reply, room);
    FlattenConcat([METHOD_ACCEPTED], [reply]);
    OneMessage(METHOD_ACCEPTED, room);
    assert [METHOD_ACCEPTED, reply] == [METHOD_ACCEPTED] + [reply];
    ClientBytes(Served(a, rest, room, w), room);
  }

  lemma RefusedRecord(input: seq<byte>, room: nat, debug: bool, w: World)
    requires !Accepts(Run(MethodHead, input, room, debug).end)
    ensures Serve(input, room, debug, w) == Record(Run(MethodHead, input, room, debug).attempted, [], Closed)
  {
    hide Run;
  }

  lemma SaidAreRefusals(said: seq<seq<byte>>)
    requires RequestSaid(said)
    ensures forall i :: 0 <= i < |said| ==> IsReply(said[i]) && said[i][1] != SUCCESS
  {
    ReplyIsReply(ADDRESS_TYPE_NOT_SUPPORTED, DEFAULT_ADDR);
    ReplyIsReply(COMMAND_NOT_SUPPORTED, DEFAULT_ADDR);
    hide IsReply, Encode;
  }

  lemma RefusalsAreSafe(input: seq<byte>, room: nat, w: World, attempted: seq<seq<byte>>, said: seq<seq<byte>>)
    requires attempted == [] || attempted == [METHOD_REJECTED]
             || (Greeted(input) && attempted == [METHOD_ACCEPTED] + said)
    requires forall i :: 0 <= i < |said| ==> IsReply(said[i]) && |said[i]| > 1 && said[i][1] != SUCCESS
    ensures Safe(input, room, w, Record(attempted, [], Closed))
  {
    hide IsReply, Greeted, Flatten;
    assert forall i :: 1 <= i < |attempted| ==> attempted[i] == said[i - 1];
  }

  lemma RefusedIsSafe(input: seq<byte>, room: nat, debug: bool, w: World)
    requires !Accepts(Run(MethodHead, input, room, debug).end)
    ensures Safe(input, room, w, Serve(input, room, debug, w))
  {
    var said := HandshakeSays(input, room, debug);
    SaidAreRefusals(said);
    hide *;
    RefusedRecord(input, room, debug, w);
    RefusalsAreSafe(input, room, w, Run(MethodHead, input, room, debug).attempted, said);
  }

  /** Transcript safety, for every client, every point where writing fails and every world: what the
      client receives is the beginning of a method selection, final replies and tunnel bytes, in that
      order; replies come only after NO AUTHENTICATION was offered and selected; Success is said only when
      the connect succeeded, and tunnel bytes only flow behind a complete Success reply. */
  lemma TranscriptSafety(input: seq<byte>, room: nat, debug: bool, w: World)
    ensures Safe(input, room, w, Serve(input, room, debug, w))
  {
    hide *;
    if Accepts(Run(MethodHead, input, room, debug).end) {
      var methods, reserved, a, rest := Accepted(input, room, debug);
      ServeAccepted(input, room, debug, w, a, rest);
      GreetedSplit(methods, Connect(reserved, a) + rest);
      assert input == Greeting(methods) + (Connect(reserved, a) + rest);
      ServedIsSafe(input, room, w, a, rest);
    } else {
      RefusedIsSafe(input, room, debug, w);
    }
  }

  /** At most one final reply - except that a request for an unknown address type is answered twice,
      exactly when the first of the two replies fits. */
  lemma SecondReplyIff(input: seq<byte>, room: nat, debug: bool, w: World)
    ensures var s := Serve(input, room, debug, w);
            && |s.attempted| <= 3
            && (|s.attempted| == 3 <==> UnknownTypeRequest(input) && room >= 12)
            && (|s.attempted| == 3 ==> s.attempted == [METHOD_ACCEPTED, UNSUPPORTED_TYPE, UNSUPPORTED_TYPE])
  {
    var said := HandshakeSays(input, room, debug);
    hide Run, Reply, UnknownTypeRequest, Flatten, Pair.Steps;
    if |Run(MethodHead, input, room, debug).attempted| == 3 {
      assert [METHOD_ACCEPTED] + [UNSUPPORTED_TYPE, UNSUPPORTED_TYPE]
          == [METHOD_ACCEPTED, UNSUPPORTED_TYPE, UNSUPPORTED_TYPE];
    }
  }

  lemma AsksForType9(input: seq<byte>)
    requires input == [SOCKS5_PROTOCOL, 1, SOCKS5_NO_AUTH, SOCKS5_PROTOCOL, SOCKS5_CMD_CONNECT, 0, 9, 0]
    ensures UnknownTypeRequest(input)
  {
    assert input[2..3] == [SOCKS5_NO_AUTH];
    assert RequestBytes(input) == [SOCKS5_PROTOCOL, SOCKS5_CMD_CONNECT, 0, 9, 0];
  }

  /** A request for address type 9 is answered twice, whatever the world. */
  lemma SecondReplyExample(w: World)
    ensures var input := [SOCKS5_PROTOCOL, 1, SOCKS5_NO_AUTH, SOCKS5_PROTOCOL, SOCKS5_CMD_CONNECT, 0, 9, 0];
            Serve(input, 22, false, w).attempted == [METHOD_ACCEPTED, UNSUPPORTED_TYPE, UNSUPPORTED_TYPE]
  {
    hide *;
    var input: seq<byte> := [SOCKS5_PROTOCOL, 1, SOCKS5_NO_AUTH, SOCKS5_PROTOCOL, SOCKS5_CMD_CONNECT, 0, 9, 0];
    AsksForType9(input);
    SecondReplyIff(input, 22, false, w);
  }

  // -- End to end ------------------------------------------------------------------------------

  /** The stream of a well-formed client. */
  function Stream(methods: seq<byte>, reserved: byte, a: ReqAddr, rest: seq<byte>): seq<byte>
    requires |methods| <= 255 && Encodable(a)
  {
    Greeting(methods) + Connect(reserved, a) + rest
  }

  lemma StreamServed(methods: seq<byte>, reserved: byte, a: ReqAddr, rest: seq<byte>, room: nat, debug: bool, w: World)
    requires |methods| <= 255 && SOCKS5_NO_AUTH in methods && Encodable(a) && Readable(a) && room >= 2
    ensures Serve(Stream(methods, reserved, a, rest), room, debug, w) == Served(a, rest, room, w)
  {
    AcceptsWellFormed(methods, reserved, a, rest, room, debug);
    hide Run, Encode, Serve, Served, AsRead;
    var input := Stream(methods, reserved, a, rest);
    assert input[|input| - |rest|..] == rest;
    ServeAccepted(input, room, debug, w, a, rest);
  }

  lemma ServedReceives(a: ReqAddr, rest: seq<byte>, room: nat, w: World)
    requires Readable(a)
    ensures var s := Served(a, rest, room, w);
            && |s.attempted| == 2
            && var said := METHOD_ACCEPTED + s.attempted[1];
               if s.tunnel.Closed? then s.ToClient(room) == Take(said, room) else said <= s.ToClient(room)
  {
    var s := Served(a, rest, room, w);
    var reply := s.attempted[1];
    OneMessage(reply, room);
    FlattenConcat([METHOD_ACCEPTED], [reply]);
    OneMessage(METHOD_ACCEPTED, room);
    assert [METHOD_ACCEPTED, reply] == [METHOD_ACCEPTED] + [reply];
    hide Flatten, Emit, Encode, AsRead, Pair.Steps;
    assert Take(METHOD_ACCEPTED + reply, room) + [] == Take(METHOD_ACCEPTED + reply, room);
  }

  /** End-to-end echo. Every well-formed client gets one final reply, with the code the outcome of the
      connect calls for; the reply carries the request's own address type, address and port, byte for byte,
      and the proxy dials that address, exactly when the address is faithful: not IPv4, or with both port
      bytes equal to the last octet. The client receives the method selection and that reply, as far as writing
      succeeds, and nothing else in front of the tunnel. */
  lemma EchoIff(methods: seq<byte>, reserved: byte, a: ReqAddr, rest: seq<byte>, room: nat, debug: bool, w: World)
    requires |methods| <= 255 && SOCKS5_NO_AUTH in methods && Encodable(a) && Readable(a) && room >= 2
    ensures var s := Serve(Stream(methods, reserved, a, rest), room, debug, w);
            && |s.attempted| == 2 && s.attempted[0] == [5, 0]
            && |s.attempted[1]| > 3 && s.attempted[1][0] == 5 && s.attempted[1][2] == 0
            && s.attempted[1][1] == (if !w.supported then 1
                                     else match w.dial
                                       case Connected(_) => 0
                                       case Refused(GeneralFailure) => 1
                                       case Refused(NetworkUnreachable) => 3
                                       case Refused(HostUnreachable) => 4
                                       case Refused(ConnectionRefused) => 5
                                       case Refused(TimedOut) => 6)
            && (s.attempted[1][3..] == Encode(a) <==> Faithful(a))
            && |s.dialed| == (if w.supported then 1 else 0)
            && (w.supported ==> (s.dialed[0] == a <==> Faithful(a)))
            && var said := [5, 0] + s.attempted[1];
               if s.tunnel.Closed? then s.ToClient(room) == Take(said, room) else said <= s.ToClient(room)
  {
    StreamServed(methods, reserved, a, rest, room, debug, w);
    ServedReceives(a, rest, room, w);
    AsReadIsIdentityIffFaithful(a);
    var b := AsRead(a);
    if Encode(b) == Encode(a) {
      assert Encode(b) + [] == Encode(a) + [];
      EncodingPrefixFree(b, a, [], []);
    }
    EncodedLength(b);
    assert Reply(ReplyCode(w), b)[3..] == Encode(b);
    hide Encode, Serve, Stream, AsRead, Faithful, Pair.Steps;
  }

  /** No over-read, and conservation: the tunnel carries the client's bytes from exactly behind the request,
      and the target's from the first; whatever either side has received at any moment is a prefix of what
      the other sent, and a copy that ends well has delivered everything. */
  lemma TunnelCarriesTheRest(methods: seq<byte>, reserved: byte, a: ReqAddr, rest: seq<byte>, room: nat, debug: bool,
      w: World)
    requires |methods| <= 255 && SOCKS5_NO_AUTH in methods && Encodable(a) && Readable(a) && room >= 2
    ensures var s := Serve(Stream(methods, reserved, a, rest), room, debug, w);
            && (s.tunnel.Open? <==> w.supported && w.dial.Connected? && 2 + |Reply(SUCCESS, AsRead(a))| <= room)
            && (s.tunnel.Open? ==>
                  && s.tunnel.pair == Pair(Begin(rest), Begin(w.dial.fromTarget))
                                      .Steps(if w.addressed then w.schedule else [])
                  && s.ToTarget() <= rest
                  && s.ToClient(room) <= METHOD_ACCEPTED + Reply(SUCCESS, AsRead(a)) + w.dial.fromTarget
                  && (w.addressed && Outcome(s.tunnel.pair) == Copied ==>
                        s.ToTarget() == rest
                        && s.ToClient(room) == METHOD_ACCEPTED + Reply(SUCCESS, AsRead(a)) + w.dial.fromTarget))
  {
    StreamServed(methods, reserved, a, rest, room, debug, w);
    var reply := Reply(SUCCESS, AsRead(a));
    if w.dial.Connected? {
      TunnelIsFaithful(rest, w.dial.fromTarget, w.schedule);
    }
    OneMessage(reply, room);
    FlattenConcat([METHOD_ACCEPTED], [reply]);
    OneMessage(METHOD_ACCEPTED, room);
    assert [METHOD_ACCEPTED, reply] == [METHOD_ACCEPTED] + [reply];
    hide Encode, Serve, Stream, AsRead, Pair.Steps, Flatten, Emit;
  }

  lemma LongNameRequest(reserved: byte, a: ReqAddr, rest: seq<byte>, room: nat, debug: bool)
    requires Encodable(a) && !Readable(a)
    ensures Run(RequestHead, Connect(reserved, a) + rest, room, debug) == Trace([], 5, Finished(Panicked))
  {
    hide *;
    var request := Connect(reserved, a) + rest;
    ConnectParts(reserved, a, rest);
    ReadEncoded(a, rest);
    RequestDecides(request, room, debug);
    DecidedByAddress(request, Run(RequestHead, request, room, debug), room, debug);
  }

  lemma StreamSplit(methods: seq<byte>, reserved: byte, a: ReqAddr, rest: seq<byte>)
    requires |methods| <= 255 && Encodable(a)
    ensures Stream(methods, reserved, a, rest) == Greeting(methods) + (Connect(reserved, a) + rest)
  {
    hide Greeting, Connect;
  }

  lemma NotAccepted(p: Phase)
    ensures p == Finished(Panicked) ==> !Accepts(p)
  {
  }

  /** A name of 254 or 255 bytes, which RFC 1928 allows, brings the handshake down before a reply. */
  lemma LongNamePanics(methods: seq<byte>, reserved: byte, a: ReqAddr, rest: seq<byte>, room: nat, debug: bool,
      w: World)
    requires |methods| <= 255 && SOCKS5_NO_AUTH in methods && Encodable(a) && !Readable(a) && room >= 2
    ensures Serve(Stream(methods, reserved, a, rest), room, debug, w) == Record([METHOD_ACCEPTED], [], Closed)
    ensures Run(MethodHead, Stream(methods, reserved, a, rest), room, debug).end == Finished(Panicked)
  {
    hide *;
    var request := Connect(reserved, a) + rest;
    var input := Stream(methods, reserved, a, rest);
    LongNameRequest(reserved, a, rest, room - 2, debug);
    GreetedSplit(methods, request);
    StreamSplit(methods, reserved, a, rest);
    NegotiationDecides(input, room, debug);
    assert [METHOD_ACCEPTED] + [] == [METHOD_ACCEPTED];
    NotAccepted(Run(MethodHead, input, room, debug).end);
    RefusedRecord(input, room, debug, w);
  }

  // -- On the wire -----------------------------------------------------------------------------

  lemma HighLow(p: byte, q: byte)
    ensures (256 * p + q) / 256 == p && (256 * p + q) % 256 == q
  {
  }

  lemma WireStream(methods: seq<byte>, request: seq<byte>, reserved: byte, a: ReqAddr, rest: seq<byte>)
    requires |methods| <= 255 && Encodable(a) && Connect(reserved, a) == request
    ensures [5, |methods|] + methods + (request + rest) == Stream(methods, reserved, a, rest)
  {
    hide Connect;
  }

  lemma ServedSays(a: ReqAddr, rest: seq<byte>, room: nat, w: World)
    requires Readable(a)
    ensures Encodable(AsRead(a))
    ensures Served(a, rest, room, w).attempted == [[5, 0], Reply(ReplyCode(w), AsRead(a))]
    ensures Served(a, rest, room, w).dialed == if w.supported then [AsRead(a)] else []
    ensures |Reply(ReplyCode(w), AsRead(a))| > 3
    ensures Reply(ReplyCode(w), AsRead(a))[1] == ReplyCode(w)
  {
    EncodedLength(AsRead(a));
    hide Encode, Pair.Steps;
  }

  lemma Fits(a: ReqAddr)
    requires a.Domain? ==> |a.name| <= 253
    ensures Readable(a) && Encodable(a) && SOCKS5_NO_AUTH == 0
  {
  }

  /** A client that asks for an IPv4 address: the proxy dials it, and replies with it, at the port of its last octet
      and the first port byte. */
  lemma IPv4Session(methods: seq<byte>, reserved: byte, octets: Octets, p: byte, q: byte, rest: seq<byte>, room: nat,
      debug: bool, w: World)
    requires |methods| <= 255 && 0 in methods && room >= 2
    ensures var input := [5, |methods|] + methods + ([5, 1, reserved, 1] + octets + [p, q] + rest);
            var s := Serve(input, room, debug, w);
            && |s.attempted| == 2 && |s.attempted[1]| > 3
            && s.attempted == [[5, 0], [5, s.attempted[1][1], 0, 1] + octets + [octets[3], p]]
            && s.dialed == if w.supported then [IP(V4(octets, 256 * octets[3] + p))] else []
  {
    hide *;
    var a := IP(V4(octets, 256 * p + q));
    IPv4Bytes(reserved, octets, p, q);
    Fits(a);
    WireStream(methods, [5, 1, reserved, 1] + octets + [p, q], reserved, a, rest);
    StreamServed(methods, reserved, a, rest, room, debug, w);
    ServedSays(a, rest, room, w);
    IPv4Reply(ReplyCode(w), octets, 256 * octets[3] + p);
    HighLow(octets[3], p);
  }

  /** A client that asks for an IPv6 address: the proxy dials it, and replies with it, at the port given. */
  lemma IPv6Session(methods: seq<byte>, reserved: byte, bytes: seq<byte>, p: byte, q: byte, rest: seq<byte>, room: nat,
      debug: bool, w: World) returns (segments: Segments)
    requires |methods| <= 255 && 0 in methods && room >= 2 && |bytes| == 16
    ensures forall k :: 0 <= k < 8 ==> segments[k] == 256 * bytes[2 * k] as int + bytes[2 * k + 1] as int
    ensures var input := [5, |methods|] + methods + ([5, 1, reserved, 4] + bytes + [p, q] + rest);
            var s := Serve(input, room, debug, w);
            && |s.attempted| == 2 && |s.attempted[1]| > 3
            && s.attempted == [[5, 0], [5, s.attempted[1][1], 0, 4] + bytes + [p, q]]
            && s.dialed == if w.supported then [IP(V6(segments, 256 * p + q))] else []
  {
    hide *;
    segments := SegmentsOf(bytes);
    var a := IP(V6(segments, 256 * p + q));
    IPv6Bytes(reserved, bytes, p, q);
    SegmentsJoined(bytes);
    Fits(a);
    WireStream(methods, [5, 1, reserved, 4] + bytes + [p, q], reserved, a, rest);
    StreamServed(methods, reserved, a, rest, room, debug, w);
    ServedSays(a, rest, room, w);
    IPv6Echo(ReplyCode(w), bytes, p, q);
  }

  /** A client that asks for a domain name: the proxy dials it, and replies with it, at the port given. */
  lemma DomainSession(methods: seq<byte>, reserved: byte, name: Utf8, p: byte, q: byte, rest: seq<byte>, room: nat,
      debug: bool, w: World)
    requires |methods| <= 255 && 0 in methods && room >= 2 && |name| <= 253
    ensures var input := [5, |methods|] + methods + ([5, 1, reserved, 3, |name|] + name + [p, q] + rest);
            var s := Serve(input, room, debug, w);
            && |s.attempted| == 2 && |s.attempted[1]| > 3
            && s.attempted == [[5, 0], [5, s.attempted[1][1], 0, 3, |name|] + name + [p, q]]
            && s.dialed == if w.supported then [Domain(name, 256 * p + q)] else []
  {
    hide *;
    var a := Domain(name, 256 * p + q);
    DomainBytes(reserved, name, p, q);
    Fits(a);
    WireStream(methods, [5, 1, reserved, 3, |name|] + name + [p, q], reserved, a, rest);
    StreamServed(methods, reserved, a, rest, room, debug, w);
    ServedSays(a, rest, room, w);
    DomainReply(ReplyCode(w), name, 256 * p + q);
    HighLow(p, q);
  }

  // -- The driver ------------------------------------------------------------------------------

  lemma RefusedClient(c: Conn, debug: bool, w: World)
    requires !Accepts(Run(MethodHead, c.inbox, c.room, debug).end)
    ensures var t := Run(MethodHead, c.inbox, c.room, debug);
            var s := Serve(c.inbox, c.room, debug, w);
            && s.dialed == [] && s.tunnel.Closed? && s.ToTarget() == []
            && ConnAfter(c, t).sent == c.sent + s.ToClient(c.room)
  {
    RefusedRecord(c.inbox, c.room, debug, w);
    hide Run, Serve, Flatten;
    var t := Run(MethodHead, c.inbox, c.room, debug);
    assert Take(Flatten(t.attempted), c.room) + [] == Take(Flatten(t.attempted), c.room);
  }

  lemma SentTwice(c: Conn, reply: seq<byte>, t: Trace)
    requires t.consumed <= |c.inbox| && t.attempted == [METHOD_ACCEPTED] && c.room >= 2 && t.end.Finished?
    ensures ConnAfter(c, t) == Conn(c.inbox[t.consumed..], c.room - 2, c.sent + METHOD_ACCEPTED)
    ensures ConnAfter(c, t).Written(reply).sent == c.sent + Take(Flatten([METHOD_ACCEPTED, reply]), c.room)
    ensures |Flatten([METHOD_ACCEPTED, reply])| == 2 + |reply|
  {
    AfterMessage(c, t, METHOD_ACCEPTED);
    FlattenConcat([METHOD_ACCEPTED], [reply]);
    OneMessage(METHOD_ACCEPTED, c.room);
    OneMessage(reply, c.room);
    assert [METHOD_ACCEPTED, reply] == [METHOD_ACCEPTED] + [reply];
    hide Flatten, Emit;
    assert c.sent + METHOD_ACCEPTED + Take(reply, c.room - 2) == c.sent + Take(METHOD_ACCEPTED + reply, c.room);
  }

  /** `process_request`, with `abort`: target is the connection a successful connect yields. */
  method ProcessRequest(client: Socks5Connected, target: TcpStream, w: World, a: ReqAddr)
    requires client.stream != null && client.stream != target && w.supported
    requires w.dial.Connected? ==> target.inbox == w.dial.fromTarget
    modifies client`stream, client.stream, target
    ensures var c := old(client.stream.Value());
            if !Printable(a) then
              client.stream == old(client.stream) && client.stream.Value() == c && target.sent == old(target.sent)
            else
              var reply := Reply(if w.dial.Refused? then GetReason(w.dial.err) else SUCCESS, a);
              var sent := c.Written(reply).sent;
              if w.dial.Refused? || |reply| > c.room then
                client.stream == old(client.stream) && client.stream.sent == sent && target.sent == old(target.sent)
              else
                var begin := Pair(Begin(c.inbox), Begin(w.dial.fromTarget));
                var pair := if w.addressed then begin.Steps(w.schedule) else begin;
                && client.stream == null && old(client.stream).sent == sent + pair.o2i.delivered
                && target.sent == old(target.sent) + pair.i2o.delivered
  {
    hide Reply, Pair.Steps;
    match w.dial
    case Refused(e) =>
      var _ := client.Abort(e, a);
    case Connected(_) =>
      var ready := client.ReadyForConnect(a);
      if ready.Ok? {
        var _ := Bicopy(ready.value, target, w.addressed, w.schedule);
      }
  }

  /** `handle_client`. */
  method HandleClient(client: Socks5Connected, target: TcpStream, w: World) returns (dialed: seq<ReqAddr>)
    requires client.stream != null && client.stream != target
    requires w.dial.Connected? ==> target.inbox == w.dial.fromTarget
    modifies client`stream, client.stream, target
    ensures var s := Serve(old(client.stream.inbox), old(client.stream.room), client.debug, w);
            && old(client.stream).sent == old(client.stream.sent) + s.ToClient(old(client.stream.room))
            && target.sent == old(target.sent) + s.ToTarget()
            && dialed == s.dialed
            && (s.tunnel.Open? <==> client.stream == null)
  {
    hide Run, Reply, Flatten, Pair.Steps, Encode, Serve, AsRead, IsReply, ConnAfter;
    ghost var c := client.stream.Value();
    ghost var t := Run(MethodHead, c.inbox, c.room, client.debug);
    var stream := client.stream;
    dialed := [];
    var r := client.NextRequest();
    if !r.Ok? {
      RefusedClient(c, client.debug, w);
      return;
    }
    var a := r.value;
    ghost var methods, reserved, b, rest := Accepted(c.inbox, c.room, client.debug);
    ServeAccepted(c.inbox, c.room, client.debug, w, b, rest);
    SentTwice(c, Reply(ReplyCode(w), a), t);
    if !w.supported {
      var _ := client.Abort(GeneralFailure, a);
      return;
    }
    dialed := [a];
    ProcessRequest(client, target, w, a);
  }
}
