/** The SOCKS5 handshake of src/socks5/incoming.rs as a protocol over bytes.

    `React` says what the proxy does once a `read_exact` is satisfied. `Run` applies it to all the
    bytes a client ever sends; `Deliver` is the task that is suspended at each `read_exact` and
    resumed whenever some bytes arrive. `debug` is whether debug logging is on, and `room` is how
    many bytes the client's connection takes before writing to it fails. */
module Handshake {
  import opened Bytes
  import opened ReqAddrs
  import opened Codec

  // -- One suspension point at a time ----------------------------------------------------------

  /** The `read_exact` the handshake is suspended at, with the bytes it still remembers. */
  datatype Phase =
    | MethodHead
    | MethodList(count: byte)
    | RequestHead
    | V4Tail(first: byte)
    | V6Tail(first: byte)
    | DomainTail(length: byte)
    | Finished(result: Result<ReqAddr>)

  function Need(p: Phase): nat {
    match p
    case MethodHead => 2
    case MethodList(count) => count
    case RequestHead => 5
    case V4Tail(_) => 5
    case V6Tail(_) => 17
    case DomainTail(length) => length + 2
    case Finished(_) => 0
  }

  /** How many reads can still be ahead. */
  function Rank(p: Phase): nat {
    match p
    case MethodHead => 4
    case MethodList(_) => 3
    case RequestHead => 2
    case Finished(_) => 0
    case _ => 1
  }

  datatype Reaction = Reaction(writes: seq<seq<byte>>, next: Phase)

  const METHOD_REJECTED := [SOCKS5_PROTOCOL, SOCKS5_NO_ACCEPTABLE_METHOD]
  const METHOD_ACCEPTED := [SOCKS5_PROTOCOL, SOCKS5_NO_AUTH]
  const UNSUPPORTED_TYPE := Reply(ADDRESS_TYPE_NOT_SUPPORTED, DEFAULT_ADDR)
  const UNSUPPORTED_COMMAND := Reply(COMMAND_NOT_SUPPORTED, DEFAULT_ADDR)

  /** Where a failed write leads. */
  const BROKEN := Finished(Err(Io))

  function React(p: Phase, bytes: seq<byte>, debug: bool): (r: Reaction)
    requires !p.Finished? && |bytes| == Need(p)
    ensures Rank(r.next) < Rank(p)
  {
    match p
    case MethodHead =>
      if bytes[0] != SOCKS5_PROTOCOL then Reaction([], Finished(Err(NotSocks5(bytes[0]))))
      else Reaction([], MethodList(bytes[1]))
    case MethodList(_) =>
      if SOCKS5_NO_AUTH !in bytes
      then Reaction([METHOD_REJECTED], Finished(Err(NoSupportedMethod)))
      else Reaction([METHOD_ACCEPTED], RequestHead)
    case RequestHead =>
      if bytes[0] != SOCKS5_PROTOCOL then Reaction([], Finished(Err(NotSocks5(bytes[0]))))
      else if bytes[1] != SOCKS5_CMD_CONNECT
      then Reaction([UNSUPPORTED_COMMAND], Finished(Err(NotConnect)))
      else if bytes[3] == ATYP_IPV4 then Reaction([], V4Tail(bytes[4]))
      else if bytes[3] == ATYP_IPV6 then Reaction([], V6Tail(bytes[4]))
      else if bytes[3] == ATYP_DOMAIN then
        // the slice buf[0..addr_len + 2] of a 255-byte buffer
        if bytes[4] as int + 2 > 255 then Reaction([], Finished(Panicked)) else Reaction([], DomainTail(bytes[4]))
      else Reaction([UNSUPPORTED_TYPE, UNSUPPORTED_TYPE], Finished(Err(InvalidSocks5AddrType)))
    case V4Tail(first) => Reaction([], Finished(ParseAddressV4([first] + bytes)))
    case V6Tail(first) => Reaction([], Finished(ParseAddressV6([first] + bytes)))
    case DomainTail(length) =>
      var r := ParseDomain(length, bytes);
      if r.Err? && debug then Reaction([], Finished(Panicked))
      else if r.Err? then Reaction([UNSUPPORTED_TYPE], Finished(r))
      else Reaction([], Finished(r))
  }

  datatype Emission = Emission(attempted: seq<seq<byte>>, ok: bool)

  /** Writing messages one after the other, to a connection that takes `room` more bytes, until one
      does not fit. */
  function Emit(messages: seq<seq<byte>>, room: nat): (e: Emission)
    ensures e.attempted <= messages
    ensures e.ok ==> e.attempted == messages && |Flatten(messages)| <= room
    ensures !e.ok ==> |Flatten(e.attempted)| > room
  {
    if messages == [] then Emission([], true)
    else if |messages[0]| > room then Emission([messages[0]], false)
    else
      var rest := Emit(messages[1..], room - |messages[0]|);
      Emission([messages[0]] + rest.attempted, rest.ok)
  }

  /** A run so far: the messages whose writing was started, the bytes read, and where it stands. */
  datatype Trace = Trace(attempted: seq<seq<byte>>, consumed: nat, end: Phase) {
    /** The bytes that reached the peer: the last message may have been cut off. */
    function Wrote(room: nat): seq<byte> { Take(Flatten(attempted), room) }

    function After(messages: seq<seq<byte>>, n: nat): (r: Trace)
      ensures r.attempted == messages + attempted && r.consumed == n + consumed && r.end == end
    {
      Trace(messages + attempted, n + consumed, end)
    }
  }

  /** The reaction to the read that input satisfies, and the bytes behind that read. */
  function Step(p: Phase, input: seq<byte>, debug: bool): (r: Reaction)
    requires !p.Finished? && Need(p) <= |input|
    ensures Rank(r.next) < Rank(p)
  {
    React(p, input[..Need(p)], debug)
  }

  function Rest(p: Phase, input: seq<byte>): (r: seq<byte>)
    requires Need(p) <= |input|
    ensures |r| == |input| - Need(p)
  {
    input[Need(p)..]
  }

  /** The handshake from phase p on, given everything the client sends. */
  function Run(p: Phase, input: seq<byte>, room: nat, debug: bool): (t: Trace)
    ensures t.consumed <= |input|
    ensures t.end.Finished? || |input| - t.consumed < Need(t.end)
    decreases Rank(p)
  {
    if p.Finished? || |input| < Need(p) then Trace([], 0, p)
    else
      var reaction := Step(p, input, debug);
      var e := Emit(reaction.writes, room);
      if !e.ok then Trace(e.attempted, Need(p), BROKEN)
      else Run(reaction.next, Rest(p, input), room - |Flatten(reaction.writes)|, debug).After(reaction.writes, Need(p))
  }

  lemma RunStep(p: Phase, input: seq<byte>, room: nat, debug: bool)
    requires !p.Finished? && |input| >= Need(p) && Emit(Step(p, input, debug).writes, room).ok
    ensures var reaction := Step(p, input, debug);
            |Flatten(reaction.writes)| <= room &&
            Run(p, input, room, debug)
            == Run(reaction.next, Rest(p, input), room - |Flatten(reaction.writes)|, debug)
               .After(reaction.writes, Need(p))
  {
    hide Step, Rest, Emit, Flatten;
  }

  lemma RunCut(p: Phase, input: seq<byte>, room: nat, debug: bool)
    requires !p.Finished? && |input| >= Need(p) && !Emit(Step(p, input, debug).writes, room).ok
    ensures Run(p, input, room, debug) == Trace(Emit(Step(p, input, debug).writes, room).attempted, Need(p), BROKEN)
  {
    hide Step, Rest, Emit, Flatten;
  }

  // -- Reading is exact and monotone -----------------------------------------------------------

  lemma RunAtOnce(p: Phase, input: seq<byte>, other: seq<byte>, room: nat, debug: bool)
    requires p.Finished? || |input| < Need(p)
    ensures Run(p, input, room, debug) == Trace([], 0, p)
    ensures p.Finished? ==> Run(p, other, room, debug) == Trace([], 0, p)
  {
  }

  lemma SharedPrefix(p: Phase, a: seq<byte>, b: seq<byte>, c: nat, debug: bool)
    requires !p.Finished? && Need(p) <= c <= |a| && a[..c] <= b
    ensures Step(p, b, debug) == Step(p, a, debug)
    ensures Rest(p, a)[..c - Need(p)] <= Rest(p, b)
  {
    hide React;
    var n := Need(p);
    assert b[..n] == a[..c][..n] == a[..n];
    assert a[n..][..c - n] == a[..c][n..] <= b[n..];
  }

  /** A finished run has read exactly `consumed` bytes: what follows them changes nothing. */
  lemma {:induction false} FinishedIgnoresTheRest(p: Phase, input: seq<byte>, other: seq<byte>, room: nat, debug: bool)
    requires Run(p, input, room, debug).end.Finished?
    requires input[..Run(p, input, room, debug).consumed] <= other
    ensures Run(p, other, room, debug) == Run(p, input, room, debug)
    decreases Rank(p)
  {
    hide *;
    if p.Finished? || |input| < Need(p) {
      RunAtOnce(p, input, other, room, debug);
    } else {
      var reaction := Step(p, input, debug);
      if Emit(reaction.writes, room).ok {
        RunStep(p, input, room, debug);
        SharedPrefix(p, input, other, Run(p, input, room, debug).consumed, debug);
        RunStep(p, other, room, debug);
        FinishedIgnoresTheRest(reaction.next, Rest(p, input), Rest(p, other), room - |Flatten(reaction.writes)|, debug);
      } else {
        RunCut(p, input, room, debug);
        SharedPrefix(p, input, other, Need(p), debug);
        RunCut(p, other, room, debug);
      }
    }
  }

  lemma AfterAfter(t: Trace, a: seq<seq<byte>>, m: nat, b: seq<seq<byte>>, n: nat)
    ensures t.After(b, n).After(a, m) == t.After(a + b, m + n)
  {
    assert a + (b + t.attempted) == (a + b) + t.attempted;
  }

  lemma ResumeAtOnce(p: Phase, a: seq<byte>, b: seq<byte>, room: nat, debug: bool)
    requires |a| < Need(p)
    ensures var t := Run(p, a, room, debug);
            && t == Trace([], 0, p) && Flatten(t.attempted) == []
            && Run(p, a + b, room, debug) == Run(p, a[0..] + b, room, debug).After([], 0)
  {
    hide Step, Rest, Emit;
    var u := Run(p, a + b, room, debug);
    assert a[0..] == a && [] + u.attempted == u.attempted;
  }

  lemma WaitingHasWritten(p: Phase, a: seq<byte>, room: nat, debug: bool)
    requires Need(p) <= |a| && !Run(p, a, room, debug).end.Finished?
    ensures !p.Finished? && Emit(Step(p, a, debug).writes, room).ok
  {
    hide Step, Rest, Emit, Flatten;
  }

  lemma ExtendedStep(p: Phase, a: seq<byte>, b: seq<byte>, k: nat, debug: bool)
    requires !p.Finished? && Need(p) + k <= |a|
    ensures Step(p, a + b, debug) == Step(p, a, debug)
    ensures Rest(p, a + b) == Rest(p, a) + b
    ensures Rest(p, a)[k..] == a[Need(p) + k..]
  {
    hide React;
    var n := Need(p);
    assert (a + b)[..n] == a[..n] && (a + b)[n..] == a[n..] + b;
  }

  /** Running on more bytes is running on the first ones and then resuming. */
  lemma {:induction false} RunResumes(p: Phase, a: seq<byte>, b: seq<byte>, room: nat, debug: bool, t: Trace)
    requires t == Run(p, a, room, debug) && !t.end.Finished?
    ensures |Flatten(t.attempted)| <= room
    ensures Run(p, a + b, room, debug)
            == Run(t.end, a[t.consumed..] + b, room - |Flatten(t.attempted)|, debug).After(t.attempted, t.consumed)
    decreases Rank(p)
  {
    hide *;
    if |a| < Need(p) {
      ResumeAtOnce(p, a, b, room, debug);
    } else {
      WaitingHasWritten(p, a, room, debug);
      var reaction := Step(p, a, debug);
      RunStep(p, a, room, debug);
      var left := room - |Flatten(reaction.writes)|;
      var v := Run(reaction.next, Rest(p, a), left, debug);
      FlattenConcat(reaction.writes, v.attempted);
      RunResumes(reaction.next, Rest(p, a), b, left, debug, v);
      ExtendedStep(p, a, b, v.consumed, debug);
      RunStep(p, a + b, room, debug);
      AfterAfter(Run(v.end, a[t.consumed..] + b, left - |Flatten(v.attempted)|, debug), reaction.writes, Need(p),
          v.attempted, v.consumed);
    }
  }

  /** On every proper prefix of what a finished run reads, the handshake is still waiting: it has
      neither accepted nor rejected, and has said no more than the beginning of what it will say. */
  lemma PrefixWaits(p: Phase, input: seq<byte>, j: nat, room: nat, debug: bool)
    requires Run(p, input, room, debug).end.Finished?
    requires j < Run(p, input, room, debug).consumed
    ensures !Run(p, input[..j], room, debug).end.Finished?
    ensures Run(p, input[..j], room, debug).attempted <= Run(p, input, room, debug).attempted
  {
    hide Run;
    var t := Run(p, input[..j], room, debug);
    if t.end.Finished? {
      assert input[..j][..t.consumed] == input[..t.consumed] <= input;
      FinishedIgnoresTheRest(p, input[..j], input, room, debug);
    } else {
      assert input[..j] + input[j..] == input;
      RunResumes(p, input[..j], input[j..], room, debug, t);
    }
  }

  // -- The suspended task ----------------------------------------------------------------------

  /** The task between two polls: the pending read and the bytes it has collected, the bytes written,
      and, once it is over, the bytes left in the socket. */
  datatype Task = Task(at: Phase, have: seq<byte>, unread: seq<byte>, room: nat, wrote: seq<byte>)

  predicate Suspended(s: Task) { s.at.Finished? || |s.have| < Need(s.at) }

  /** Some bytes arrive: the pending read takes what it still needs, and the task goes on for as long
      as its reads are satisfied. */
  function Deliver(s: Task, chunk: seq<byte>, debug: bool): (r: Task)
    requires s.at.Finished? || |s.have| <= Need(s.at)
    ensures Suspended(r)
    decreases Rank(s.at)
  {
    if s.at.Finished? then s.(unread := s.unread + chunk)
    else
      var missing := Need(s.at) - |s.have|;
      if |chunk| < missing then s.(have := s.have + chunk)
      else
        var reaction := React(s.at, s.have + chunk[..missing], debug);
        var e := Emit(reaction.writes, s.room);
        if !e.ok then Task(BROKEN, [], chunk[missing..], 0, s.wrote + Take(Flatten(e.attempted), s.room))
        else
          var said := Flatten(reaction.writes);
          Deliver(Task(reaction.next, [], [], s.room - |said|, s.wrote + said), chunk[missing..], debug)
  }

  function DeliverAll(s: Task, chunks: seq<seq<byte>>, debug: bool): Task
    requires Suspended(s)
    decreases |chunks|
  {
    if chunks == [] then s else DeliverAll(Deliver(s, chunks[0], debug), chunks[1..], debug)
  }

  /** The task that has run as t says over input. */
  function Embed(t: Trace, input: seq<byte>, room: nat, wrote: seq<byte>): Task
    requires t.consumed <= |input|
  {
    var sent := Flatten(t.attempted);
    var left := if |sent| <= room then room - |sent| else 0;
    var rest := input[t.consumed..];
    if t.end.Finished? then Task(t.end, [], rest, left, wrote + Take(sent, room))
    else Task(t.end, rest, [], left, wrote + Take(sent, room))
  }

  lemma DeliverStep(p: Phase, have: seq<byte>, chunk: seq<byte>, room: nat, wrote: seq<byte>, debug: bool)
    requires !p.Finished? && |have| <= Need(p) <= |have + chunk|
    ensures var reaction := Step(p, have + chunk, debug);
            var e := Emit(reaction.writes, room);
            var said := Flatten(reaction.writes);
            Deliver(Task(p, have, [], room, wrote), chunk, debug)
            == if e.ok
               then Deliver(Task(reaction.next, [], [], room - |said|, wrote + said), Rest(p, have + chunk), debug)
               else Task(BROKEN, [], Rest(p, have + chunk), 0, wrote + Take(Flatten(e.attempted), room))
  {
    hide Emit, Flatten, React;
    var missing := Need(p) - |have|;
    assert have + chunk[..missing] == (have + chunk)[..Need(p)];
    assert chunk[missing..] == (have + chunk)[Need(p)..];
  }

  lemma EmbedAfter(t: Trace, messages: seq<seq<byte>>, n: nat, input: seq<byte>, room: nat, wrote: seq<byte>)
    requires n <= |input| && t.consumed <= |input| - n && |Flatten(messages)| <= room
    ensures Embed(t.After(messages, n), input, room, wrote)
            == Embed(t, input[n..], room - |Flatten(messages)|, wrote + Flatten(messages))
  {
    FlattenConcat(messages, t.attempted);
    hide Flatten;
    var said := Flatten(messages);
    assert input[n..][t.consumed..] == input[n + t.consumed..];
    assert wrote + said + Take(Flatten(t.attempted), room - |said|) == wrote + Take(said + Flatten(t.attempted), room);
  }

  lemma DeliverShort(p: Phase, have: seq<byte>, chunk: seq<byte>, room: nat, wrote: seq<byte>, debug: bool)
    requires if p.Finished? then have == [] else |have + chunk| < Need(p)
    ensures Deliver(Task(p, have, [], room, wrote), chunk, debug)
            == Embed(Run(p, have + chunk, room, debug), have + chunk, room, wrote)
  {
    hide React, Emit;
    var input := have + chunk;
    assert input[0..] == input && wrote + [] == wrote;
    assert p.Finished? ==> input == chunk == [] + chunk;
  }

  lemma RestIsSuffix(p: Phase, input: seq<byte>)
    requires Need(p) <= |input|
    ensures Rest(p, input) == input[Need(p)..]
  {
  }

  lemma EmbedCut(messages: seq<seq<byte>>, n: nat, input: seq<byte>, room: nat, wrote: seq<byte>)
    requires n <= |input| && !Emit(messages, room).ok
    ensures Embed(Trace(Emit(messages, room).attempted, n, BROKEN), input, room, wrote)
            == Task(BROKEN, [], input[n..], 0, wrote + Take(Flatten(Emit(messages, room).attempted), room))
  {
    hide Emit, Flatten, Take;
  }

  lemma {:induction false} DeliverIsRun(p: Phase, have: seq<byte>, chunk: seq<byte>, room: nat, wrote: seq<byte>,
      debug: bool)
    requires if p.Finished? then have == [] else |have| <= Need(p)
    ensures Deliver(Task(p, have, [], room, wrote), chunk, debug)
            == Embed(Run(p, have + chunk, room, debug), have + chunk, room, wrote)
    decreases Rank(p)
  {
    hide *;
    var input := have + chunk;
    if p.Finished? || |input| < Need(p) {
      DeliverShort(p, have, chunk, room, wrote, debug);
    } else {
      DeliverStep(p, have, chunk, room, wrote, debug);
      RestIsSuffix(p, input);
      var reaction := Step(p, input, debug);
      if Emit(reaction.writes, room).ok {
        RunStep(p, input, room, debug);
        var said := Flatten(reaction.writes);
        DeliverIsRun(reaction.next, [], Rest(p, input), room - |said|, wrote + said, debug);
        assert [] + Rest(p, input) == Rest(p, input);
        EmbedAfter(Run(reaction.next, Rest(p, input), room - |said|, debug), reaction.writes, Need(p), input, room,
            wrote);
      } else {
        RunCut(p, input, room, debug);
        EmbedCut(reaction.writes, Need(p), input, room, wrote);
      }
    }
  }

  lemma DeliverUnread(t: Trace, input: seq<byte>, chunk: seq<byte>, room: nat, debug: bool)
    requires t.end.Finished? && t.consumed <= |input|
    ensures Deliver(Embed(t, input, room, []), chunk, debug) == Embed(t, input + chunk, room, [])
  {
    assert (input + chunk)[t.consumed..] == input[t.consumed..] + chunk;
  }

  lemma EmbedWaiting(t: Trace, input: seq<byte>, room: nat)
    requires !t.end.Finished? && t.consumed <= |input| && |Flatten(t.attempted)| <= room
    ensures [] + Flatten(t.attempted) == Flatten(t.attempted)
    ensures Embed(t, input, room, [])
            == Task(t.end, input[t.consumed..], [], room - |Flatten(t.attempted)|, Flatten(t.attempted))
  {
    hide Flatten;
  }

  lemma DeliverOne(p: Phase, input: seq<byte>, chunk: seq<byte>, room: nat, debug: bool)
    ensures Deliver(Embed(Run(p, input, room, debug), input, room, []), chunk, debug)
            == Embed(Run(p, input + chunk, room, debug), input + chunk, room, [])
  {
    hide *;
    var t := Run(p, input, room, debug);
    if t.end.Finished? {
      assert input[..t.consumed] <= input + chunk;
      FinishedIgnoresTheRest(p, input, input + chunk, room, debug);
      DeliverUnread(t, input, chunk, room, debug);
    } else {
      RunResumes(p, input, chunk, room, debug, t);
      var have := input[t.consumed..];
      var said := Flatten(t.attempted);
      DeliverIsRun(t.end, have, chunk, room - |said|, said, debug);
      EmbedWaiting(t, input, room);
      assert (input + chunk)[t.consumed..] == have + chunk;
      EmbedAfter(Run(t.end, have + chunk, room - |said|, debug), t.attempted, t.consumed, input + chunk, room, []);
    }
  }

  lemma {:induction false} DeliverAllIsRun(p: Phase, input: seq<byte>, chunks: seq<seq<byte>>, room: nat, debug: bool)
    requires Suspended(Embed(Run(p, input, room, debug), input, room, []))
    ensures DeliverAll(Embed(Run(p, input, room, debug), input, room, []), chunks, debug)
            == Embed(Run(p, input + Flatten(chunks), room, debug), input + Flatten(chunks), room, [])
    decreases |chunks|
  {
    hide Run, Deliver, Embed;
    if chunks == [] {
      assert input + [] == input;
    } else {
      DeliverOne(p, input, chunks[0], room, debug);
      DeliverAllIsRun(p, input + chunks[0], chunks[1..], room, debug);
      assert input + chunks[0] + Flatten(chunks[1..]) == input + Flatten(chunks);
    }
  }

  /** Segmentation independence: however the client's bytes are cut up, the suspended task ends in the
      same state - same outcome or same pending read, same bytes written, same bytes left unread - as
      one run over the concatenation. */
  lemma SegmentationIndependence(chunks: seq<seq<byte>>, room: nat, debug: bool)
    ensures DeliverAll(Task(MethodHead, [], [], room, []), chunks, debug)
            == Embed(Run(MethodHead, Flatten(chunks), room, debug), Flatten(chunks), room, [])
  {
    assert Embed(Run(MethodHead, [], room, debug), [], room, []) == Task(MethodHead, [], [], room, []);
    DeliverAllIsRun(MethodHead, [], chunks, room, debug);
    assert [] + Flatten(chunks) == Flatten(chunks);
  }

  // -- Write failures --------------------------------------------------------------------------

  lemma TakePast(head: seq<byte>, tail: seq<byte>, room: nat)
    requires |head| <= room
    ensures Take(head + tail, room) == head + Take(tail, room - |head|)
  {
  }

  lemma FlattenCons(head: seq<byte>, tail: seq<seq<byte>>)
    ensures Flatten([head] + tail) == head + Flatten(tail)
  {
    assert ([head] + tail)[1..] == tail;
  }

  lemma {:induction false} EmitTruncates(messages: seq<seq<byte>>, room: nat, more: nat)
    requires room <= more
    ensures Emit(messages, room).attempted <= Emit(messages, more).attempted
    ensures Emit(messages, room).ok ==> Emit(messages, more).ok
    ensures Take(Flatten(Emit(messages, room).attempted), room) == Take(Flatten(Emit(messages, more).attempted), room)
    ensures |Flatten(Emit(messages, more).attempted)| <= room ==> Emit(messages, more) == Emit(messages, room)
  {
    if messages != [] {
      var head, tail := messages[0], messages[1..];
      if |head| <= room {
        EmitTruncates(tail, room - |head|, more - |head|);
        var a, b := Emit(tail, room - |head|).attempted, Emit(tail, more - |head|).attempted;
        FlattenCons(head, a);
        FlattenCons(head, b);
        hide Flatten;
        TakePast(head, Flatten(a), room);
        TakePast(head, Flatten(b), room);
      } else {
        var b := Emit(messages, more).attempted;
        FlattenCons(head, b[1..]);
        FlattenCons(head, []);
        assert b == [head] + b[1..] && Emit(messages, room).attempted == [head] + [];
      }
    }
  }

  /** t, cut off after `room` bytes, is u up to there. */
  predicate Truncates(t: Trace, u: Trace, room: nat, more: nat) {
    && t.attempted <= u.attempted
    && t.Wrote(room) == Take(u.Wrote(more), room)
    && (|Flatten(u.attempted)| <= room ==> t == u)
  }

  lemma TruncatesAtOnce(p: Phase, input: seq<byte>, room: nat, more: nat, debug: bool)
    requires p.Finished? || |input| < Need(p)
    ensures Truncates(Run(p, input, room, debug), Run(p, input, more, debug), room, more)
  {
  }

  lemma TakeAfter(said: seq<byte>, a: seq<byte>, b: seq<byte>, room: nat, more: nat)
    requires |said| <= room <= more
    requires Take(a, room - |said|) == Take(Take(b, more - |said|), room - |said|)
    ensures Take(said + a, room) == Take(Take(said + b, more), room)
  {
    assert Take(said + a, room) == said + Take(a, room - |said|);
    assert Take(said + b, more) == said + Take(b, more - |said|);
    assert Take(said + Take(b, more - |said|), room) == said + Take(Take(b, more - |said|), room - |said|);
  }

  lemma TruncatesAfter(t: Trace, u: Trace, writes: seq<seq<byte>>, n: nat, room: nat, more: nat)
    requires |Flatten(writes)| <= room <= more
    requires Truncates(t, u, room - |Flatten(writes)|, more - |Flatten(writes)|)
    ensures Truncates(t.After(writes, n), u.After(writes, n), room, more)
  {
    FlattenConcat(writes, t.attempted);
    FlattenConcat(writes, u.attempted);
    hide Flatten, Take;
    TakeAfter(Flatten(writes), Flatten(t.attempted), Flatten(u.attempted), room, more);
  }

  lemma TakeOfPrefix(cut: seq<seq<byte>>, writes: seq<seq<byte>>, later: seq<seq<byte>>, room: nat, more: nat)
    requires cut <= writes && |Flatten(cut)| > room && room <= more
    ensures Take(Flatten(cut), room) == Take(Take(Flatten(writes + later), more), room)
  {
    var rest := writes[|cut|..] + later;
    assert cut + rest == writes + later;
    FlattenConcat(cut, rest);
  }

  lemma TruncatedHere(writes: seq<seq<byte>>, u: Trace, n: nat, room: nat, more: nat)
    requires room <= more && !Emit(writes, room).ok
    ensures Truncates(Trace(Emit(writes, room).attempted, n, BROKEN), u.After(writes, n), room, more)
  {
    hide Flatten, Take, Emit;
    FlattenConcat(writes, u.attempted);
    var cut := Emit(writes, room).attempted;
    FlattenConcat(cut, writes[|cut|..]);
    assert cut + writes[|cut|..] == writes;
    TakeOfPrefix(cut, writes, u.attempted, room, more);
  }

  lemma TruncatedTwice(writes: seq<seq<byte>>, n: nat, room: nat, more: nat)
    requires room <= more && !Emit(writes, room).ok && !Emit(writes, more).ok
    ensures Truncates(Trace(Emit(writes, room).attempted, n, BROKEN), Trace(Emit(writes, more).attempted, n, BROKEN),
            room, more)
  {
    EmitTruncates(writes, room, more);
    hide Flatten, Emit;
  }

  /** Where writing fails never changes what is written before: for every failure point the client has
      received exactly that many bytes of what it would have received otherwise. */
  lemma {:induction false} WriteFailureTruncates(p: Phase, input: seq<byte>, room: nat, more: nat, debug: bool)
    requires room <= more
    ensures Truncates(Run(p, input, room, debug), Run(p, input, more, debug), room, more)
    decreases Rank(p)
  {
    hide *;
    if !p.Finished? && |input| >= Need(p) {
      var reaction := Step(p, input, debug);
      var writes := reaction.writes;
      EmitTruncates(writes, room, more);
      if Emit(writes, room).ok {
        RunStep(p, input, room, debug);
        RunStep(p, input, more, debug);
        var k := |Flatten(writes)|;
        WriteFailureTruncates(reaction.next, Rest(p, input), room - k, more - k, debug);
        var t := Run(reaction.next, Rest(p, input), room - k, debug);
        var u := Run(reaction.next, Rest(p, input), more - k, debug);
        TruncatesAfter(t, u, writes, Need(p), room, more);
      } else {
        RunCut(p, input, room, debug);
        if Emit(writes, more).ok {
          RunStep(p, input, more, debug);
          TruncatedHere(writes, Run(reaction.next, Rest(p, input), more - |Flatten(writes)|, debug), Need(p), room,
              more);
        } else {
          RunCut(p, input, more, debug);
          TruncatedTwice(writes, Need(p), room, more);
        }
      }
    } else {
      TruncatesAtOnce(p, input, room, more, debug);
    }
  }
}
