/** src/connection.rs: the two-way copy of a tunnel.

    The two `copy` futures of `join!` interleave as the executor and the network decide; a schedule of
    events, arbitrary in length and content, stands for both. */
module Relay {
  import opened Bytes
  import opened Streams

  datatype Direction = InToOut | OutToIn

  /** One step of one copy: it reads up to n bytes into its buffer, writes up to n bytes from it, meets
      end of stream, or meets an error. */
  datatype Event =
    | Read(dir: Direction, n: nat)
    | Write(dir: Direction, n: nat)
    | Eof(dir: Direction)
    | Fail(dir: Direction)

  datatype Status = Running | Done | Broken

  /** A `copy` in progress: what its source still holds, what it has buffered, what it has written. */
  datatype Half = Half(pending: seq<byte>, buffer: seq<byte>, delivered: seq<byte>, status: Status) {
    function Step(e: Event): Half {
      if status != Running then this
      else
        match e
        case Read(_, n) =>
          var k := if n < |pending| then n else |pending|;
          Half(pending[k..], buffer + pending[..k], delivered, Running)
        case Write(_, n) =>
          var k := if n < |buffer| then n else |buffer|;
          Half(pending, buffer[k..], delivered + buffer[..k], Running)
        case Eof(_) => if pending == [] && buffer == [] then this.(status := Done) else this
        case Fail(_) => this.(status := Broken)
    }

    function Steps(events: seq<Event>): Half
      decreases |events|
    {
      if events == [] then this else Step(events[0]).Steps(events[1..])
    }
  }

  datatype Pair = Pair(i2o: Half, o2i: Half) {
    function Step(e: Event): Pair {
      if e.dir.InToOut? then Pair(i2o.Step(e), o2i) else Pair(i2o, o2i.Step(e))
    }

    function Steps(events: seq<Event>): Pair
      decreases |events|
    {
      if events == [] then this else Step(events[0]).Steps(events[1..])
    }
  }

  function Begin(source: seq<byte>): Half { Half(source, [], [], Running) }

  datatype Transfer = NoAddress | Copying | Copied | FirstHalfFailed | SecondHalfFailed

  /** `join!` waits for both copies, and the second error wins. */
  function Outcome(p: Pair): Transfer {
    if p.i2o.status == Running || p.o2i.status == Running then Copying
    else if p.o2i.status == Broken then SecondHalfFailed
    else if p.i2o.status == Broken then FirstHalfFailed
    else Copied
  }

  function Select(events: seq<Event>, dir: Direction): seq<Event> {
    if events == [] then []
    else if events[0].dir == dir then [events[0]] + Select(events[1..], dir)
    else Select(events[1..], dir)
  }

  /** Only the order of events within a direction matters: under any interleaving each direction ends
      as it does when it is copied alone. */
  lemma {:induction false} DirectionsAreIndependent(p: Pair, events: seq<Event>)
    ensures p.Steps(events) == Pair(p.i2o.Steps(Select(events, InToOut)), p.o2i.Steps(Select(events, OutToIn)))
    decreases |events|
  {
    if events != [] {
      DirectionsAreIndependent(p.Step(events[0]), events[1..]);
      var rest := Select(events[1..], events[0].dir);
      assert ([events[0]] + rest)[1..] == rest;
    }
  }

  lemma StepConserves(h: Half, e: Event)
    ensures h.Step(e).delivered + h.Step(e).buffer + h.Step(e).pending == h.delivered + h.buffer + h.pending
    ensures h.delivered <= h.Step(e).delivered
  {
  }

  /** Bytes are neither lost, invented nor reordered on the way. */
  lemma {:induction false} Conserved(h: Half, events: seq<Event>)
    ensures var e := h.Steps(events);
            e.delivered + e.buffer + e.pending == h.delivered + h.buffer + h.pending
    ensures h.delivered <= h.Steps(events).delivered
    decreases |events|
  {
    if events != [] {
      var next := h.Step(events[0]);
      Conserved(next, events[1..]);
      StepConserves(h, events[0]);
    }
  }

  lemma {:induction false} DoneIsDrained(h: Half, events: seq<Event>)
    requires h.status == Done ==> h.pending == [] && h.buffer == []
    ensures var e := h.Steps(events); e.status == Done ==> e.pending == [] && e.buffer == []
    decreases |events|
  {
    if events != [] {
      DoneIsDrained(h.Step(events[0]), events[1..]);
    }
  }

  lemma Received(source: seq<byte>, events: seq<Event>)
    ensures var h := Begin(source).Steps(events);
            h.delivered <= source && (h.status == Done ==> h.delivered == source)
  {
    var h := Begin(source).Steps(events);
    Conserved(Begin(source), events);
    DoneIsDrained(Begin(source), events);
    assert [] + [] + source == source;
    assert h.delivered + h.buffer + h.pending == h.delivered + (h.buffer + h.pending);
  }

  /** Under every schedule and at every moment, what each side has received is a prefix of what the other
      side sent; and `Ok(())` means that both directions are delivered in full. */
  lemma TunnelIsFaithful(fromClient: seq<byte>, fromTarget: seq<byte>, events: seq<Event>)
    ensures var p := Pair(Begin(fromClient), Begin(fromTarget)).Steps(events);
            && p.i2o.delivered <= fromClient
            && p.o2i.delivered <= fromTarget
            && (Outcome(p) == Copied ==> p.i2o.delivered == fromClient && p.o2i.delivered == fromTarget)
  {
    var p := Pair(Begin(fromClient), Begin(fromTarget));
    DirectionsAreIndependent(p, events);
    Received(fromClient, Select(events, InToOut));
    Received(fromTarget, Select(events, OutToIn));
  }

  lemma {:induction false} SelectedIn(events: seq<Event>, dir: Direction)
    ensures forall e :: e in Select(events, dir) ==> e in events && e.dir == dir
    decreases |events|
  {
    if events != [] {
      SelectedIn(events[1..], dir);
      assert forall e :: e in events[1..] ==> e in events;
    }
  }

  lemma {:induction false} HalfFails(h: Half, events: seq<Event>)
    requires h.status != Broken
    ensures h.Steps(events).status == Broken ==> exists e :: e in events && e.Fail?
    decreases |events|
  {
    if events != [] && !events[0].Fail? {
      HalfFails(h.Step(events[0]), events[1..]);
      assert forall e :: e in events[1..] ==> e in events;
    }
  }

  /** A transfer fails only through an error on the reader or the writer of the copy it is blamed on. */
  lemma BrokenOnlyByFailure(p: Pair, events: seq<Event>)
    requires p.i2o.status != Broken && p.o2i.status != Broken
    ensures var r := Outcome(p.Steps(events));
            && (r == FirstHalfFailed ==> Fail(InToOut) in events)
            && (r == SecondHalfFailed ==> Fail(OutToIn) in events)
  {
    DirectionsAreIndependent(p, events);
    SelectedIn(events, InToOut);
    SelectedIn(events, OutToIn);
    HalfFails(p.i2o, Select(events, InToOut));
    HalfFails(p.o2i, Select(events, OutToIn));
    hide Half.Step, Half.Steps, Pair.Steps, Select;
    assert forall e :: e in events && e.Fail? ==> e == Fail(e.dir);
  }

  lemma {:induction false} Selects(a: seq<Event>, b: seq<Event>, dir: Direction)
    ensures Select(a + b, dir) == Select(a, dir) + Select(b, dir)
    decreases |a|
  {
    if a == [] {
      assert a + b == b;
    } else {
      Selects(a[1..], b, dir);
      assert (a + b)[1..] == a[1..] + b;
    }
  }

  /** Reading, writing and meeting the end of the stream, all of it. */
  function Finish(dir: Direction, h: Half): seq<Event> {
    [Read(dir, |h.pending|), Write(dir, |h.buffer| + |h.pending|), Eof(dir)]
  }

  lemma ThreeSteps(h: Half, a: Event, b: Event, c: Event)
    ensures h.Steps([a, b, c]) == h.Step(a).Step(b).Step(c)
  {
    assert [a, b, c][1..] == [b, c] && [b, c][1..] == [c] && [c][1..] == [];
    hide Half.Step;
    assert h.Step(a).Step(b).Steps([c]) == h.Step(a).Step(b).Step(c).Steps([]);
    assert h.Step(a).Steps([b, c]) == h.Step(a).Step(b).Steps([c]);
  }

  lemma FinishCompletes(dir: Direction, h: Half)
    requires h.status != Broken
    ensures h.Steps(Finish(dir, h)).status == Done
  {
    ThreeSteps(h, Read(dir, |h.pending|), Write(dir, |h.buffer| + |h.pending|), Eof(dir));
    hide Half.Steps;
  }

  lemma SelectStep(e: Event, rest: seq<Event>, dir: Direction)
    ensures Select([e] + rest, dir) == (if e.dir == dir then [e] else []) + Select(rest, dir)
  {
    assert ([e] + rest)[1..] == rest;
  }

  lemma FinishSelected(dir: Direction, h: Half)
    ensures Select(Finish(dir, h), dir) == Finish(dir, h)
    ensures forall d :: d != dir ==> Select(Finish(dir, h), d) == []
  {
    var a, b, c := Read(dir, |h.pending|), Write(dir, |h.buffer| + |h.pending|), Eof(dir);
    assert Finish(dir, h) == [a] + ([b] + ([c] + []));
    forall d ensures Select(Finish(dir, h), d) == if d == dir then Finish(dir, h) else [] {
      SelectStep(a, [b] + ([c] + []), d);
      SelectStep(b, [c] + [], d);
      SelectStep(c, [], d);
    }
    hide Finish;
  }

  lemma BothSelected(h: Half, g: Half)
    ensures var all := Finish(InToOut, h) + Finish(OutToIn, g);
            Select(all, InToOut) == Finish(InToOut, h) && Select(all, OutToIn) == Finish(OutToIn, g)
  {
    FinishSelected(InToOut, h);
    FinishSelected(OutToIn, g);
    Selects(Finish(InToOut, h), Finish(OutToIn, g), InToOut);
    Selects(Finish(InToOut, h), Finish(OutToIn, g), OutToIn);
    hide Select, Finish;
  }

  lemma {:induction false} PairGoesOn(p: Pair, events: seq<Event>, more: seq<Event>)
    ensures p.Steps(events + more) == p.Steps(events).Steps(more)
    decreases |events|
  {
    if events == [] {
      assert events + more == more;
    } else {
      PairGoesOn(p.Step(events[0]), events[1..], more);
      assert (events + more)[1..] == events[1..] + more;
    }
  }

  lemma {:induction false} StaysBroken(h: Half, events: seq<Event>)
    ensures h.status == Broken ==> h.Steps(events).status == Broken
    decreases |events|
  {
    if events != [] {
      StaysBroken(h.Step(events[0]), events[1..]);
    }
  }

  /** A transfer without an error is never stuck: whatever its schedule so far, it can go on so that both directions
      are delivered in full. One whose copy has met an error never can. */
  lemma CanCompleteIff(fromClient: seq<byte>, fromTarget: seq<byte>, events: seq<Event>)
    ensures var begin := Pair(Begin(fromClient), Begin(fromTarget));
            var p := begin.Steps(events);
            p.i2o.status != Broken && p.o2i.status != Broken
            <==> exists more :: Outcome(begin.Steps(events + more)) == Copied
  {
    var begin := Pair(Begin(fromClient), Begin(fromTarget));
    var p := begin.Steps(events);
    forall more
      ensures begin.Steps(events + more) == Pair(p.i2o.Steps(Select(more, InToOut)), p.o2i.Steps(Select(more, OutToIn)))
    {
      PairGoesOn(begin, events, more);
      DirectionsAreIndependent(p, more);
    }
    if p.i2o.status != Broken && p.o2i.status != Broken {
      var up, down := Finish(InToOut, p.i2o), Finish(OutToIn, p.o2i);
      FinishCompletes(InToOut, p.i2o);
      FinishCompletes(OutToIn, p.o2i);
      BothSelected(p.i2o, p.o2i);
      assert Outcome(begin.Steps(events + (up + down))) == Copied;
    } else {
      forall more ensures Outcome(begin.Steps(events + more)) != Copied {
        StaysBroken(p.i2o, Select(more, InToOut));
        StaysBroken(p.o2i, Select(more, OutToIn));
      }
    }
  }

  lemma {:induction false} StepsSnoc(p: Pair, events: seq<Event>, e: Event)
    ensures p.Steps(events + [e]) == p.Steps(events).Step(e)
    decreases |events|
  {
    if events == [] {
      assert [e][1..] == [];
    } else {
      StepsSnoc(p.Step(events[0]), events[1..], e);
      assert (events + [e])[1..] == events[1..] + [e];
    }
  }

  // -- How a transfer ends ---------------------------------------------------------------------

  function Side(p: Pair, dir: Direction): Half { if dir.InToOut? then p.i2o else p.o2i }

  /** The transfer of all that the client and the target send, after a schedule. */
  function Transferred(fromClient: seq<byte>, fromTarget: seq<byte>, events: seq<Event>): Pair {
    Pair(Begin(fromClient), Begin(fromTarget)).Steps(events)
  }

  /** The k-th event would end the copy in direction dir: an error of it, or the end of its source when all of
      that has been delivered. */
  predicate EndsAt(fromClient: seq<byte>, fromTarget: seq<byte>, events: seq<Event>, dir: Direction, k: int) {
    && 0 <= k < |events|
    && (events[k] == Fail(dir)
        || (events[k] == Eof(dir)
            && Side(Transferred(fromClient, fromTarget, events[..k]), dir).delivered
               == if dir.InToOut? then fromClient else fromTarget))
  }

  /** The k-th event is the first that does. */
  ghost predicate Ends(fromClient: seq<byte>, fromTarget: seq<byte>, events: seq<Event>, dir: Direction, k: int) {
    && EndsAt(fromClient, fromTarget, events, dir, k)
    && forall j :: j < k ==> !EndsAt(fromClient, fromTarget, events, dir, j)
  }

  lemma AllDelivered(delivered: seq<byte>, buffer: seq<byte>, pending: seq<byte>, source: seq<byte>)
    requires delivered + buffer + pending == source
    ensures delivered == source <==> pending == [] && buffer == []
  {
    assert |source| == |delivered| + |buffer| + |pending|;
    assert delivered + [] + [] == delivered;
  }

  lemma DrainedIff(fromClient: seq<byte>, fromTarget: seq<byte>, events: seq<Event>, dir: Direction)
    ensures var h := Side(Transferred(fromClient, fromTarget, events), dir);
            h.delivered == (if dir.InToOut? then fromClient else fromTarget) <==> h.pending == [] && h.buffer == []
  {
    var source := if dir.InToOut? then fromClient else fromTarget;
    DirectionsAreIndependent(Pair(Begin(fromClient), Begin(fromTarget)), events);
    Conserved(Begin(source), Select(events, dir));
    hide Half.Steps, Pair.Steps, Select;
    var h := Side(Transferred(fromClient, fromTarget, events), dir);
    assert h.delivered + h.buffer + h.pending == source by { assert [] + [] + source == source; }
    AllDelivered(h.delivered, h.buffer, h.pending, source);
  }

  /** The first ending of a copy, if it has one, is the k-th event; otherwise k is -1. */
  lemma {:induction false} FirstEnding(fromClient: seq<byte>, fromTarget: seq<byte>, events: seq<Event>, dir: Direction)
    returns (k: int)
    ensures k == -1 ==> forall j :: !EndsAt(fromClient, fromTarget, events, dir, j)
    ensures k != -1 ==> Ends(fromClient, fromTarget, events, dir, k)
    ensures Side(Transferred(fromClient, fromTarget, events), dir).status
            == if k == -1 then Running else if events[k].Fail? then Broken else Done
    decreases |events|
  {
    if events == [] {
      return -1;
    }
    var n := |events| - 1;
    var before := events[..n];
    assert before + [events[n]] == events;
    k := FirstEnding(fromClient, fromTarget, before, dir);
    StepsSnoc(Pair(Begin(fromClient), Begin(fromTarget)), before, events[n]);
    DrainedIff(fromClient, fromTarget, before, dir);
    forall j | j < n
      ensures EndsAt(fromClient, fromTarget, events, dir, j) <==> EndsAt(fromClient, fromTarget, before, dir, j)
    {
      assert 0 <= j ==> events[..j] == before[..j];
    }
    if k == -1 && EndsAt(fromClient, fromTarget, events, dir, n) {
      k := n;
    }
    hide Pair.Steps, Half.Steps;
  }

  ghost predicate EndsWell(fromClient: seq<byte>, fromTarget: seq<byte>, events: seq<Event>, dir: Direction) {
    exists k :: Ends(fromClient, fromTarget, events, dir, k) && events[k].Eof?
  }

  ghost predicate EndsBadly(fromClient: seq<byte>, fromTarget: seq<byte>, events: seq<Event>, dir: Direction) {
    exists k :: Ends(fromClient, fromTarget, events, dir, k) && events[k].Fail?
  }

  /** How each copy ends, for every schedule: the first event that ends it decides. */
  lemma StatusIff(fromClient: seq<byte>, fromTarget: seq<byte>, events: seq<Event>, dir: Direction)
    ensures var status := Side(Transferred(fromClient, fromTarget, events), dir).status;
            && (status == Broken <==> EndsBadly(fromClient, fromTarget, events, dir))
            && (status == Done <==> EndsWell(fromClient, fromTarget, events, dir))
            && (status == Running <==> forall k :: !EndsAt(fromClient, fromTarget, events, dir, k))
  {
    var k := FirstEnding(fromClient, fromTarget, events, dir);
    forall j | Ends(fromClient, fromTarget, events, dir, j) ensures j == k {
    }
    hide Transferred;
  }

  /** What the transfer answers, for every schedule: nothing as long as one copy has not ended; then an error of the
      second copy if it ended badly, whatever the first did; else one of the first if that did; else Ok. */
  lemma OutcomeIff(fromClient: seq<byte>, fromTarget: seq<byte>, events: seq<Event>)
    ensures var r := Outcome(Transferred(fromClient, fromTarget, events));
            var well1 := EndsWell(fromClient, fromTarget, events, InToOut);
            var well2 := EndsWell(fromClient, fromTarget, events, OutToIn);
            var badly1 := EndsBadly(fromClient, fromTarget, events, InToOut);
            var badly2 := EndsBadly(fromClient, fromTarget, events, OutToIn);
            && (r == SecondHalfFailed <==> (well1 || badly1) && badly2)
            && (r == FirstHalfFailed <==> badly1 && well2)
            && (r == Copied <==> well1 && well2)
            && (r == Copying <==> !(well1 || badly1) || !(well2 || badly2))
  {
    StatusIff(fromClient, fromTarget, events, InToOut);
    StatusIff(fromClient, fromTarget, events, OutToIn);
    hide Transferred, EndsWell, EndsBadly, EndsAt;
  }

  /** One step of tokio's `copy` from one stream into another. */
  method CopyStep(from: TcpStream, into: TcpStream, buffer: seq<byte>, status: Status, e: Event)
    returns (buffer2: seq<byte>, status2: Status)
    requires from != into
    modifies from`inbox, into`sent
    ensures var h := Half(old(from.inbox), buffer, [], status).Step(e);
            && from.inbox == h.pending && buffer2 == h.buffer && status2 == h.status
            && into.sent == old(into.sent) + h.delivered
  {
    buffer2, status2 := buffer, status;
    if status == Running {
      match e
      case Read(_, n) =>
        var k := if n < |from.inbox| then n else |from.inbox|;
        buffer2 := buffer + from.inbox[..k];
        from.inbox := from.inbox[k..];
      case Write(_, n) =>
        var k := if n < |buffer| then n else |buffer|;
        into.sent := into.sent + buffer[..k];
        buffer2 := buffer[k..];
      case Eof(_) =>
        if from.inbox == [] && buffer == [] {
          status2 := Done;
        }
      case Fail(_) =>
        status2 := Broken;
    }
  }

  /** `bicopy`: `addressed` is whether all four socket addresses could be looked up. */
  method Bicopy(incoming: TcpStream, outgoing: TcpStream, addressed: bool, schedule: seq<Event>) returns (r: Transfer)
    requires incoming != outgoing
    modifies incoming, outgoing
    ensures incoming.room == old(incoming.room) && outgoing.room == old(outgoing.room)
    ensures !addressed ==>
              r == NoAddress && incoming.Value() == old(incoming.Value()) && outgoing.Value() == old(outgoing.Value())
    ensures addressed ==>
              var p := Pair(Begin(old(incoming.inbox)), Begin(old(outgoing.inbox))).Steps(schedule);
              && r == Outcome(p)
              && incoming.inbox == p.i2o.pending && outgoing.sent == old(outgoing.sent) + p.i2o.delivered
              && outgoing.inbox == p.o2i.pending && incoming.sent == old(incoming.sent) + p.o2i.delivered
  {
    if !addressed {
      return NoAddress;
    }
    ghost var start := Pair(Begin(incoming.inbox), Begin(outgoing.inbox));
    ghost var p := start;
    var up, down := [], [];
    var upStatus, downStatus := Running, Running;
    for k := 0 to |schedule|
      invariant p == start.Steps(schedule[..k])
      invariant incoming.room == old(incoming.room) && outgoing.room == old(outgoing.room)
      invariant p.i2o.pending == incoming.inbox && p.i2o.buffer == up && p.i2o.status == upStatus
      invariant p.o2i.pending == outgoing.inbox && p.o2i.buffer == down && p.o2i.status == downStatus
      invariant outgoing.sent == old(outgoing.sent) + p.i2o.delivered
      invariant incoming.sent == old(incoming.sent) + p.o2i.delivered
    {
      StepsSnoc(start, schedule[..k], schedule[k]);
      assert schedule[..k + 1] == schedule[..k] + [schedule[k]];
      p := p.Step(schedule[k]);
      if schedule[k].dir.InToOut? {
        up, upStatus := CopyStep(incoming, outgoing, up, upStatus, schedule[k]);
      } else {
        down, downStatus := CopyStep(outgoing, incoming, down, downStatus, schedule[k]);
      }
    }
    assert schedule[..|schedule|] == schedule;
    r := if upStatus == Running || downStatus == Running then Copying
         else if downStatus == Broken then SecondHalfFailed
         else if upStatus == Broken then FirstHalfFailed
         else Copied;
  }
}
