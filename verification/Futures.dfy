/** src/future_ext.rs: the combinators `alt`, `join` and `join_on_ok` as step machines on values, and what
    arbitrary trees of them compute. */
module Futures {
  datatype Maybe = None | Some(v: Val)

  /** What futures produce: opaque data, results, pairs, and pairs of options. */
  datatype Val =
    | Plain(id: int)
    | Okay(v: Val)
    | Error(v: Val)
    | Both(fst: Val, snd: Val)
    | Options(opt1: Maybe, opt2: Maybe)

  datatype Time = At(t: nat) | Never

  /** A tree of futures, with the fields its nodes carry between polls. A source becomes ready at the poll
      of the root that its time names, and counts how often it is polled itself. */
  datatype Fut =
    | Source(ready: Time, value: Val, polls: nat, done: bool)
    | Alt(f1: Fut, f2: Fut)
    | Join(f1: Fut, f2: Fut, slot1: Maybe, slot2: Maybe)
    | JoinOnOk(f1: Fut, f2: Fut, slot1: Maybe, slot2: Maybe)

  /** Misuse is a panic: polling a completed future, or reaching `unreachable!()`. */
  datatype Poll = Pending | Ready(value: Val) | Misuse

  datatype Polled = Polled(next: Fut, poll: Poll)

  // -- One poll --------------------------------------------------------------------------------

  function PollSource(f: Fut, now: nat): Polled
    requires f.Source?
  {
    if f.done then Polled(f, Misuse)
    else if f.ready.At? && f.ready.t <= now then Polled(f.(polls := f.polls + 1, done := true), Ready(f.value))
    else Polled(f.(polls := f.polls + 1), Pending)
  }

  function AltResult(a: Poll, b: Poll): Poll {
    match (a, b)
    case (Misuse, _) => Misuse
    case (_, Misuse) => Misuse
    case (Pending, Pending) => Pending
    case (Pending, Ready(v2)) => Ready(Options(None, Some(v2)))
    case (Ready(v1), Pending) => Ready(Options(Some(v1), None))
    case (Ready(v1), Ready(v2)) => Ready(Options(Some(v1), Some(v2)))
  }

  datatype Joined = Joined(slot1: Maybe, slot2: Maybe, poll: Poll)

  /** The last arm of `join`, with both slots empty. */
  function JoinResult(a: Poll, b: Poll): Joined {
    match (a, b)
    case (Misuse, _) => Joined(None, None, Misuse)
    case (_, Misuse) => Joined(None, None, Misuse)
    case (Ready(v1), Ready(v2)) => Joined(None, None, Ready(Both(v1, v2)))
    case (Ready(v1), Pending) => Joined(Some(v1), None, Pending)
    case (Pending, Ready(v2)) => Joined(None, Some(v2), Pending)
    case (Pending, Pending) => Joined(None, None, Pending)
  }

  /** The last arm of `join_on_ok`, with both slots empty. */
  function JoinOnOkResult(a: Poll, b: Poll): Joined {
    match (a, b)
    case (Misuse, _) => Joined(None, None, Misuse)
    case (_, Misuse) => Joined(None, None, Misuse)
    case (Ready(v1), Ready(v2)) => Joined(None, None, Ready(Options(Some(v1), Some(v2))))
    case (Ready(v1), Pending) =>
      if v1.Okay? then Joined(Some(v1.v), None, Pending) else Joined(None, None, Ready(Options(Some(v1), None)))
    case (Pending, Ready(v2)) =>
      if v2.Okay? then Joined(None, Some(v2.v), Pending) else Joined(None, None, Ready(Options(None, Some(v2))))
    case (Pending, Pending) => Joined(None, None, Pending)
  }

  /** The n-th poll of the root reaches a node. */
  function PollAt(f: Fut, now: nat): Polled {
    match f
    case Source(_, _, _, _) => PollSource(f, now)
    case Alt(f1, f2) =>
      var a, b := PollAt(f1, now), PollAt(f2, now);
      Polled(Alt(a.next, b.next), AltResult(a.poll, b.poll))
    case Join(f1, f2, s1, s2) =>
      if s1.Some? && s2.Some? then Polled(f, Misuse)
      else if s1.Some? then
        var b := PollAt(f2, now);
        match b.poll
        case Ready(v2) => Polled(Join(f1, b.next, None, s2), Ready(Both(s1.v, v2)))
        case other => Polled(Join(f1, b.next, s1, s2), other)
      else if s2.Some? then
        var a := PollAt(f1, now);
        match a.poll
        case Ready(v1) => Polled(Join(a.next, f2, s1, None), Ready(Both(v1, s2.v)))
        case other => Polled(Join(a.next, f2, s1, s2), other)
      else
        var a, b := PollAt(f1, now), PollAt(f2, now);
        var r := JoinResult(a.poll, b.poll);
        Polled(Join(a.next, b.next, r.slot1, r.slot2), r.poll)
    case JoinOnOk(f1, f2, s1, s2) =>
      if s1.Some? && s2.Some? then Polled(f, Misuse)
      else if s1.Some? then
        var b := PollAt(f2, now);
        match b.poll
        case Ready(v2) => Polled(JoinOnOk(f1, b.next, None, s2), Ready(Options(Some(Okay(s1.v)), Some(v2))))
        case other => Polled(JoinOnOk(f1, b.next, s1, s2), other)
      else if s2.Some? then
        var a := PollAt(f1, now);
        match a.poll
        case Ready(v1) => Polled(JoinOnOk(a.next, f2, s1, None), Ready(Options(Some(v1), Some(Okay(s2.v)))))
        case other => Polled(JoinOnOk(a.next, f2, s1, s2), other)
      else
        var a, b := PollAt(f1, now), PollAt(f2, now);
        var r := JoinOnOkResult(a.poll, b.poll);
        Polled(JoinOnOk(a.next, b.next, r.slot1, r.slot2), r.poll)
  }

  // -- What a tree means -----------------------------------------------------------------------

  /** When a future completes, and with what. */
  datatype Done = Done(at: nat, value: Val) | Endless

  predicate ReadyBy(d: Done, n: nat) { d.Done? && d.at <= n }

  function Min(a: nat, b: nat): nat { if a < b then a else b }

  function Max(a: nat, b: nat): nat { if a < b then b else a }

  /** What `alt` delivers of one side: its value if it is ready by the time the whole completes. */
  function ValueBy(d: Done, n: nat): Maybe {
    if ReadyBy(d, n) then Some(d.value) else None
  }

  /** d fails before e is ready. */
  predicate FailsBefore(d: Done, e: Done) {
    d.Done? && d.value.Error? && !ReadyBy(e, d.at)
  }

  /** `join` is the maximum of the times, `alt` the minimum, and `join_on_ok` the maximum unless the
      earlier side fails. */
  function Meaning(f: Fut): Done {
    match f
    case Source(ready, value, _, _) => if ready.At? then Done(ready.t, value) else Endless
    case Alt(f1, f2) =>
      var a, b := Meaning(f1), Meaning(f2);
      if a.Endless? && b.Endless? then Endless
      else
        var t := if a.Endless? then b.at else if b.Endless? then a.at else Min(a.at, b.at);
        Done(t, Options(ValueBy(a, t), ValueBy(b, t)))
    case Join(f1, f2, _, _) =>
      var a, b := Meaning(f1), Meaning(f2);
      if a.Done? && b.Done? then Done(Max(a.at, b.at), Both(a.value, b.value)) else Endless
    case JoinOnOk(f1, f2, _, _) =>
      var a, b := Meaning(f1), Meaning(f2);
      if FailsBefore(a, b) then Done(a.at, Options(Some(a.value), None))
      else if FailsBefore(b, a) then Done(b.at, Options(None, Some(b.value)))
      else if a.Done? && b.Done? then Done(Max(a.at, b.at), Options(Some(a.value), Some(b.value)))
      else Endless
  }

  predicate ProducesResult(f: Fut) {
    var d := Meaning(f);
    d.Done? ==> d.value.Okay? || d.value.Error?
  }

  /** The sides of `join_on_ok` produce results. */
  predicate Typed(f: Fut) {
    match f
    case Source(_, _, _, _) => true
    case Alt(f1, f2) => Typed(f1) && Typed(f2)
    case Join(f1, f2, _, _) => Typed(f1) && Typed(f2)
    case JoinOnOk(f1, f2, _, _) => Typed(f1) && Typed(f2) && ProducesResult(f1) && ProducesResult(f2)
  }

  /** Nothing has been polled. */
  predicate Fresh(f: Fut) {
    match f
    case Source(_, _, polls, done) => polls == 0 && !done
    case Alt(f1, f2) => Fresh(f1) && Fresh(f2)
    case Join(f1, f2, s1, s2) => Fresh(f1) && Fresh(f2) && s1 == None && s2 == None
    case JoinOnOk(f1, f2, s1, s2) => Fresh(f1) && Fresh(f2) && s1 == None && s2 == None
  }

  // -- The states in between -------------------------------------------------------------------

  /** How many of n polls reach a future that is polled until it completes. */
  function Cap(d: Done, n: nat): nat { if d.Done? then Min(n, d.at + 1) else n }

  /** What the slot of one side holds after n polls: its value, once it is ready and the other is not. */
  function Slot(d: Done, other: Done, n: nat): Maybe {
    if n > 0 && ReadyBy(d, n - 1) && !ReadyBy(other, n - 1) then Some(d.value) else None
  }

  function OkSlot(d: Done, other: Done, n: nat): Maybe {
    match Slot(d, other, n)
    case Some(Okay(v)) => Some(v)
    case _ => None
  }

  /** The tree f after n polls, in closed form. */
  function Evolve(f: Fut, n: nat): Fut {
    match f
    case Source(ready, value, _, _) => Source(ready, value, n, ready.At? && ready.t < n)
    case Alt(f1, f2) => Alt(Evolve(f1, Cap(Meaning(f1), n)), Evolve(f2, Cap(Meaning(f2), n)))
    case Join(f1, f2, _, _) =>
      var a, b := Meaning(f1), Meaning(f2);
      Join(Evolve(f1, Cap(a, n)), Evolve(f2, Cap(b, n)), Slot(a, b, n), Slot(b, a, n))
    case JoinOnOk(f1, f2, _, _) =>
      var a, b := Meaning(f1), Meaning(f2);
      JoinOnOk(Evolve(f1, Cap(a, n)), Evolve(f2, Cap(b, n)), OkSlot(a, b, n), OkSlot(b, a, n))
  }

  lemma {:induction false} FreshIsEvolved(f: Fut)
    requires Fresh(f)
    ensures Evolve(f, 0) == f
  {
    if !f.Source? {
      FreshIsEvolved(f.f1);
      FreshIsEvolved(f.f2);
    }
  }

  /** The answer at poll n. */
  function AnswerAt(d: Done, n: nat): Poll {
    if d.Done? && d.at == n then Ready(d.value) else Pending
  }

  /** f behaves at poll n as its meaning says. */
  predicate PollsAsMeant(f: Fut, n: nat) {
    PollAt(Evolve(f, n), n) == Polled(Evolve(f, n + 1), AnswerAt(Meaning(f), n))
  }

  predicate OpenAt(d: Done, n: nat) { d.Done? ==> n <= d.at }

  lemma EvolveStep(f: Fut, n: nat)
    requires !f.Source?
    ensures var a, b := Meaning(f.f1), Meaning(f.f2);
            var x, y := Evolve(f.f1, Cap(a, n)), Evolve(f.f2, Cap(b, n));
            Evolve(f, n) == match f
                            case Alt(_, _) => Alt(x, y)
                            case Join(_, _, _, _) => Join(x, y, Slot(a, b, n), Slot(b, a, n))
                            case JoinOnOk(_, _, _, _) => JoinOnOk(x, y, OkSlot(a, b, n), OkSlot(b, a, n))
  {
    hide Meaning, Cap, Slot, OkSlot;
  }

  lemma PollAlt(x: Fut, y: Fut, now: nat)
    ensures PollAt(Alt(x, y), now)
            == Polled(Alt(PollAt(x, now).next, PollAt(y, now).next),
                AltResult(PollAt(x, now).poll, PollAt(y, now).poll))
  {
    hide AltResult;
  }

  lemma AltPolls(f: Fut, n: nat)
    requires f.Alt? && OpenAt(Meaning(f), n) && PollsAsMeant(f.f1, n) && PollsAsMeant(f.f2, n)
    ensures PollsAsMeant(f, n)
  {
    EvolveStep(f, n);
    EvolveStep(f, n + 1);
    PollAlt(Evolve(f.f1, n), Evolve(f.f2, n), n);
    hide PollAt, Evolve;
  }

  /** A poll of `join` in each state of its slots. */
  lemma PollJoin(x: Fut, y: Fut, s1: Maybe, s2: Maybe, now: nat)
    requires s1.None? || s2.None?
    ensures var a, b := PollAt(x, now), PollAt(y, now);
            var p := PollAt(Join(x, y, s1, s2), now);
            if s1.Some? then
              b.poll.Pending? || b.poll.Ready? ==>
                p == if b.poll.Ready? then Polled(Join(x, b.next, None, None), Ready(Both(s1.v, b.poll.value)))
                     else Polled(Join(x, b.next, s1, None), Pending)
            else if s2.Some? then
              a.poll.Pending? || a.poll.Ready? ==>
                p == if a.poll.Ready? then Polled(Join(a.next, y, None, None), Ready(Both(a.poll.value, s2.v)))
                     else Polled(Join(a.next, y, None, s2), Pending)
            else
              var r := JoinResult(a.poll, b.poll);
              p == Polled(Join(a.next, b.next, r.slot1, r.slot2), r.poll)
  {
    hide JoinResult;
  }

  lemma JoinPolls(f: Fut, n: nat)
    requires f.Join? && OpenAt(Meaning(f), n)
    requires OpenAt(Meaning(f.f1), n) ==> PollsAsMeant(f.f1, n)
    requires OpenAt(Meaning(f.f2), n) ==> PollsAsMeant(f.f2, n)
    ensures PollsAsMeant(f, n)
  {
    var a, b := Meaning(f.f1), Meaning(f.f2);
    EvolveStep(f, n);
    EvolveStep(f, n + 1);
    PollJoin(Evolve(f.f1, Cap(a, n)), Evolve(f.f2, Cap(b, n)), Slot(a, b, n), Slot(b, a, n), n);
    hide PollAt, Evolve;
  }

  lemma PollJoinOnOk(x: Fut, y: Fut, s1: Maybe, s2: Maybe, now: nat)
    requires s1.None? || s2.None?
    ensures var a, b := PollAt(x, now), PollAt(y, now);
            var p := PollAt(JoinOnOk(x, y, s1, s2), now);
            if s1.Some? then
              b.poll.Pending? || b.poll.Ready? ==>
                p == if b.poll.Ready?
                     then Polled(JoinOnOk(x, b.next, None, None), Ready(Options(Some(Okay(s1.v)), Some(b.poll.value))))
                     else Polled(JoinOnOk(x, b.next, s1, None), Pending)
            else if s2.Some? then
              a.poll.Pending? || a.poll.Ready? ==>
                p == if a.poll.Ready?
                     then Polled(JoinOnOk(a.next, y, None, None), Ready(Options(Some(a.poll.value), Some(Okay(s2.v)))))
                     else Polled(JoinOnOk(a.next, y, None, s2), Pending)
            else
              var r := JoinOnOkResult(a.poll, b.poll);
              p == Polled(JoinOnOk(a.next, b.next, r.slot1, r.slot2), r.poll)
  {
    hide JoinOnOkResult;
  }

  lemma JoinOnOkPolls(f: Fut, n: nat)
    requires f.JoinOnOk? && Typed(f) && OpenAt(Meaning(f), n)
    requires OpenAt(Meaning(f.f1), n) ==> PollsAsMeant(f.f1, n)
    requires OpenAt(Meaning(f.f2), n) ==> PollsAsMeant(f.f2, n)
    ensures PollsAsMeant(f, n)
  {
    var a, b := Meaning(f.f1), Meaning(f.f2);
    EvolveStep(f, n);
    EvolveStep(f, n + 1);
    PollJoinOnOk(Evolve(f.f1, Cap(a, n)), Evolve(f.f2, Cap(b, n)), OkSlot(a, b, n), OkSlot(b, a, n), n);
    hide PollAt, Evolve;
  }

  lemma SourcePolls(f: Fut, n: nat)
    requires f.Source? && OpenAt(Meaning(f), n)
    ensures PollsAsMeant(f, n)
  {
  }

  /** Poll n of a tree that has not completed takes it from its n-th state to the next. */
  lemma {:induction false} OnePoll(f: Fut, n: nat)
    requires Typed(f) && Fresh(f) && OpenAt(Meaning(f), n)
    ensures PollsAsMeant(f, n)
  {
    hide PollAt, Evolve;
    match f
    case Source(_, _, _, _) => SourcePolls(f, n);
    case Alt(f1, f2) =>
      OnePoll(f1, n);
      OnePoll(f2, n);
      AltPolls(f, n);
    case Join(f1, f2, _, _) =>
      if OpenAt(Meaning(f1), n) {
        OnePoll(f1, n);
      }
      if OpenAt(Meaning(f2), n) {
        OnePoll(f2, n);
      }
      JoinPolls(f, n);
    case JoinOnOk(f1, f2, _, _) =>
      if OpenAt(Meaning(f1), n) {
        OnePoll(f1, n);
      }
      if OpenAt(Meaning(f2), n) {
        OnePoll(f2, n);
      }
      JoinOnOkPolls(f, n);
  }

  // -- Whole runs ------------------------------------------------------------------------------

  /** Polling the root again and again, from poll `from` on, at most n times and no more once it answers. */
  datatype Outcome = Waiting | Completed(at: nat, value: Val) | Panicked

  datatype Ran = Ran(state: Fut, outcome: Outcome)

  function PollUpTo(f: Fut, from: nat, n: nat): Ran
    decreases n
  {
    if n == 0 then Ran(f, Waiting)
    else
      var p := PollAt(f, from);
      match p.poll
      case Ready(v) => Ran(p.next, Completed(from, v))
      case Misuse => Ran(p.next, Panicked)
      case Pending => PollUpTo(p.next, from + 1, n - 1)
  }

  function Promised(d: Done, n: nat): Outcome {
    if d.Done? && d.at < n then Completed(d.at, d.value) else Waiting
  }

  lemma {:induction false} PollsFrom(f: Fut, from: nat, n: nat)
    requires Typed(f) && Fresh(f)
    requires Meaning(f).Done? ==> from <= Meaning(f).at
    ensures PollUpTo(Evolve(f, from), from, n)
            == Ran(Evolve(f, Cap(Meaning(f), from + n)), Promised(Meaning(f), from + n))
    decreases n
  {
    hide PollAt, Evolve;
    if n > 0 {
      OnePoll(f, from);
      if AnswerAt(Meaning(f), from).Pending? {
        PollsFrom(f, from + 1, n - 1);
      }
    }
  }

  /** Every finite tree of `alt`, `join` and `join_on_ok`, over sources with arbitrary, possibly infinite,
      ready times: polling it any number of times completes at exactly the poll its meaning gives, with
      exactly that value, and never panics - no future is polled after it completed, and `unreachable!()` is
      not reached. */
  lemma TreeCompletes(f: Fut, n: nat)
    requires Typed(f) && Fresh(f)
    ensures PollUpTo(f, 0, n) == Ran(Evolve(f, Cap(Meaning(f), n)), Promised(Meaning(f), n))
  {
    FreshIsEvolved(f);
    PollsFrom(f, 0, n);
  }

  // -- How often each source is polled ---------------------------------------------------------

  datatype Side = First | Second

  predicate IsPath(f: Fut, path: seq<Side>) {
    if f.Source? then path == []
    else path != [] && IsPath(if path[0].First? then f.f1 else f.f2, path[1..])
  }

  function SourceAt(f: Fut, path: seq<Side>): Fut
    requires IsPath(f, path)
    ensures SourceAt(f, path).Source?
  {
    if f.Source? then f else SourceAt(if path[0].First? then f.f1 else f.f2, path[1..])
  }

  function Earlier(a: Time, b: Time): Time {
    if a.Never? then b else if b.Never? then a else At(Min(a.t, b.t))
  }

  function TimeOf(d: Done): Time { if d.Done? then At(d.at) else Never }

  /** The earliest completion among a source and all the nodes above it. */
  function FirstOnPath(f: Fut, path: seq<Side>): Time
    requires IsPath(f, path)
  {
    if f.Source? then TimeOf(Meaning(f))
    else Earlier(TimeOf(Meaning(f)), FirstOnPath(if path[0].First? then f.f1 else f.f2, path[1..]))
  }

  function PollsBy(t: Time, n: nat): nat { if t.Never? then n else Min(n, t.t + 1) }

  lemma {:induction false} EvolvedPolls(f: Fut, path: seq<Side>, n: nat)
    requires IsPath(f, path)
    ensures IsPath(Evolve(f, Cap(Meaning(f), n)), path)
    ensures SourceAt(Evolve(f, Cap(Meaning(f), n)), path).polls == PollsBy(FirstOnPath(f, path), n)
    decreases f
  {
    if !f.Source? {
      var child := if path[0].First? then f.f1 else f.f2;
      EvolvedPolls(child, path[1..], Cap(Meaning(f), n));
    }
  }

  /** After n polls of the root each source has been polled exactly until it, or any node above it, has
      completed - and not once more. */
  lemma EachSourcePolledUntil(f: Fut, path: seq<Side>, n: nat)
    requires Typed(f) && Fresh(f) && IsPath(f, path)
    ensures IsPath(PollUpTo(f, 0, n).state, path)
    ensures SourceAt(PollUpTo(f, 0, n).state, path).polls == PollsBy(FirstOnPath(f, path), n)
  {
    TreeCompletes(f, n);
    EvolvedPolls(f, path, n);
  }

  // -- Slots -----------------------------------------------------------------------------------

  /** In state g of the tree f at most one slot of a node is filled, and what fills it is the value of its
      own side, which has completed. */
  predicate SlotsSound(f: Fut, g: Fut, n: nat) {
    match f
    case Source(_, _, _, _) => g.Source?
    case Alt(f1, f2) => g.Alt? && SlotsSound(f1, g.f1, n) && SlotsSound(f2, g.f2, n)
    case Join(f1, f2, _, _) =>
      && g.Join? && SlotsSound(f1, g.f1, n) && SlotsSound(f2, g.f2, n)
      && (g.slot1.None? || g.slot2.None?)
      && (g.slot1.Some? ==> Promised(Meaning(f1), n).Completed? && g.slot1.v == Meaning(f1).value)
      && (g.slot2.Some? ==> Promised(Meaning(f2), n).Completed? && g.slot2.v == Meaning(f2).value)
    case JoinOnOk(f1, f2, _, _) =>
      && g.JoinOnOk? && SlotsSound(f1, g.f1, n) && SlotsSound(f2, g.f2, n)
      && (g.slot1.None? || g.slot2.None?)
      && (g.slot1.Some? ==> Promised(Meaning(f1), n).Completed? && Okay(g.slot1.v) == Meaning(f1).value)
      && (g.slot2.Some? ==> Promised(Meaning(f2), n).Completed? && Okay(g.slot2.v) == Meaning(f2).value)
  }

  lemma {:induction false} EvolvedSlots(f: Fut, m: nat, n: nat)
    requires m <= n
    ensures SlotsSound(f, Evolve(f, m), n)
    decreases f
  {
    if !f.Source? {
      EvolvedSlots(f.f1, Cap(Meaning(f.f1), m), n);
      EvolvedSlots(f.f2, Cap(Meaning(f.f2), m), n);
    }
  }

  /** In every state any number of polls can reach, every node of the tree has sound slots. */
  lemma SlotsAreSound(f: Fut, n: nat)
    requires Typed(f) && Fresh(f)
    ensures SlotsSound(f, PollUpTo(f, 0, n).state, n)
  {
    TreeCompletes(f, n);
    EvolvedSlots(f, Cap(Meaning(f), n), n);
  }

  // -- Laws ------------------------------------------------------------------------------------

  function Joining(a: Fut, b: Fut): Fut { Join(a, b, None, None) }

  /** `join` is associative up to re-tupling: both nestings complete at the same poll with the same values,
      although their stored intermediate results differ on the way. */
  lemma JoinAssociative(a: Fut, b: Fut, c: Fut, n: nat)
    requires Typed(a) && Typed(b) && Typed(c) && Fresh(a) && Fresh(b) && Fresh(c)
    ensures var l := PollUpTo(Joining(Joining(a, b), c), 0, n).outcome;
            var r := PollUpTo(Joining(a, Joining(b, c)), 0, n).outcome;
            && !l.Panicked? && (l.Waiting? <==> r.Waiting?)
            && (l.Completed? ==>
                  && r.Completed? && l.at == r.at
                  && Meaning(a).Done? && Meaning(b).Done? && Meaning(c).Done?
                  && l.value == Both(Both(Meaning(a).value, Meaning(b).value), Meaning(c).value)
                  && r.value == Both(Meaning(a).value, Both(Meaning(b).value, Meaning(c).value)))
  {
    TreeCompletes(Joining(Joining(a, b), c), n);
    TreeCompletes(Joining(a, Joining(b, c)), n);
    hide PollUpTo, Evolve;
  }

  /** The sources on a path are polled equally often in l, under p, and in r, under q. */
  predicate PolledAlike(l: Fut, p: seq<Side>, r: Fut, q: seq<Side>, n: nat) {
    var x, y := PollUpTo(l, 0, n).state, PollUpTo(r, 0, n).state;
    IsPath(x, p) && IsPath(y, q) && SourceAt(x, p).polls == SourceAt(y, q).polls
  }

  lemma SameCount(l: Fut, p: seq<Side>, r: Fut, q: seq<Side>, n: nat)
    requires Typed(l) && Fresh(l) && Typed(r) && Fresh(r) && IsPath(l, p) && IsPath(r, q)
    requires FirstOnPath(l, p) == FirstOnPath(r, q)
    ensures PolledAlike(l, p, r, q, n)
  {
    EachSourcePolledUntil(l, p, n);
    EachSourcePolledUntil(r, q, n);
  }

  lemma Deeper(f: Fut, side: Side, path: seq<Side>)
    requires !f.Source?
    ensures var child := if side.First? then f.f1 else f.f2;
            && (IsPath(f, [side] + path) <==> IsPath(child, path))
            && (IsPath(child, path) ==>
                  FirstOnPath(f, [side] + path) == Earlier(TimeOf(Meaning(f)), FirstOnPath(child, path)))
  {
    assert ([side] + path)[1..] == path;
  }

  lemma FirstPolledAlike(a: Fut, b: Fut, c: Fut, path: seq<Side>, n: nat)
    requires Typed(a) && Typed(b) && Typed(c) && Fresh(a) && Fresh(b) && Fresh(c) && IsPath(a, path)
    ensures PolledAlike(Joining(Joining(a, b), c), [First] + ([First] + path),
                        Joining(a, Joining(b, c)), [First] + path, n)
  {
    var l, r := Joining(Joining(a, b), c), Joining(a, Joining(b, c));
    Deeper(l, First, [First] + path);
    Deeper(l.f1, First, path);
    Deeper(r, First, path);
    hide PollUpTo, SourceAt, PolledAlike, IsPath, FirstOnPath;
    SameCount(l, [First] + ([First] + path), r, [First] + path, n);
  }

  lemma SecondPolledAlike(a: Fut, b: Fut, c: Fut, path: seq<Side>, n: nat)
    requires Typed(a) && Typed(b) && Typed(c) && Fresh(a) && Fresh(b) && Fresh(c) && IsPath(b, path)
    ensures PolledAlike(Joining(Joining(a, b), c), [First] + ([Second] + path),
                        Joining(a, Joining(b, c)), [Second] + ([First] + path), n)
  {
    var l, r := Joining(Joining(a, b), c), Joining(a, Joining(b, c));
    Deeper(l, First, [Second] + path);
    Deeper(l.f1, Second, path);
    Deeper(r, Second, [First] + path);
    Deeper(r.f2, First, path);
    hide PollUpTo, SourceAt, PolledAlike, IsPath, FirstOnPath;
    SameCount(l, [First] + ([Second] + path), r, [Second] + ([First] + path), n);
  }

  lemma ThirdPolledAlike(a: Fut, b: Fut, c: Fut, path: seq<Side>, n: nat)
    requires Typed(a) && Typed(b) && Typed(c) && Fresh(a) && Fresh(b) && Fresh(c) && IsPath(c, path)
    ensures PolledAlike(Joining(Joining(a, b), c), [Second] + path,
                        Joining(a, Joining(b, c)), [Second] + ([Second] + path), n)
  {
    var l, r := Joining(Joining(a, b), c), Joining(a, Joining(b, c));
    Deeper(l, Second, path);
    Deeper(r, Second, [Second] + path);
    Deeper(r.f2, Second, path);
    hide PollUpTo, SourceAt, PolledAlike, IsPath, FirstOnPath;
    SameCount(l, [Second] + path, r, [Second] + ([Second] + path), n);
  }

  lemma JoinAssociativePolls(a: Fut, b: Fut, c: Fut, path: seq<Side>, n: nat)
    requires Typed(a) && Typed(b) && Typed(c) && Fresh(a) && Fresh(b) && Fresh(c)
    ensures var l, r := Joining(Joining(a, b), c), Joining(a, Joining(b, c));
            && (IsPath(a, path) ==> PolledAlike(l, [First] + ([First] + path), r, [First] + path, n))
            && (IsPath(b, path) ==> PolledAlike(l, [First] + ([Second] + path), r, [Second] + ([First] + path), n))
            && (IsPath(c, path) ==> PolledAlike(l, [Second] + path, r, [Second] + ([Second] + path), n))
  {
    if IsPath(a, path) {
      FirstPolledAlike(a, b, c, path, n);
    }
    if IsPath(b, path) {
      SecondPolledAlike(a, b, c, path, n);
    }
    if IsPath(c, path) {
      ThirdPolledAlike(a, b, c, path, n);
    }
    hide *;
  }

  /** `join` is commutative up to swapping the pair. */
  lemma JoinCommutative(a: Fut, b: Fut, n: nat)
    requires Typed(a) && Typed(b) && Fresh(a) && Fresh(b)
    ensures var l, r := PollUpTo(Joining(a, b), 0, n), PollUpTo(Joining(b, a), 0, n);
            && (l.outcome.Waiting? <==> r.outcome.Waiting?)
            && (l.outcome.Completed? ==>
                  && r.outcome.Completed? && l.outcome.at == r.outcome.at
                  && l.outcome.value.Both? && r.outcome.value == Both(l.outcome.value.snd, l.outcome.value.fst))
            && l.state.Join? && r.state.Join?
            && l.state.f1 == r.state.f2 && l.state.f2 == r.state.f1
            && l.state.slot1 == r.state.slot2 && l.state.slot2 == r.state.slot1
  {
    hide PollUpTo;
    TreeCompletes(Joining(a, b), n);
    TreeCompletes(Joining(b, a), n);
  }

  /** `join_on_ok` for arbitrary ready times and results: if the strictly earlier side fails, it completes
      then, with that error alone; otherwise at the later time with both results, an Ok stored meanwhile
      coming out unchanged. */
  lemma JoinOnOkCompletes(a: Fut, b: Fut, n: nat)
    requires Typed(JoinOnOk(a, b, None, None)) && Fresh(a) && Fresh(b)
    ensures var x, y := Meaning(a), Meaning(b);
            PollUpTo(JoinOnOk(a, b, None, None), 0, n).outcome ==
            if FailsBefore(x, y) && x.at < n then Completed(x.at, Options(Some(x.value), None))
            else if FailsBefore(y, x) && y.at < n then Completed(y.at, Options(None, Some(y.value)))
            else if !FailsBefore(x, y) && !FailsBefore(y, x) && n > 0 && ReadyBy(x, n - 1) && ReadyBy(y, n - 1)
            then Completed(Max(x.at, y.at), Options(Some(x.value), Some(y.value)))
            else Waiting
  {
    TreeCompletes(JoinOnOk(a, b, None, None), n);
  }

  // -- Combinations in terms of their sides ----------------------------------------------------

  /** A source is ready at the poll its time names, with its value. */
  lemma SourceCompletes(ready: Time, value: Val, n: nat)
    ensures PollUpTo(Source(ready, value, 0, false), 0, n).outcome
            == if ready.At? && ready.t < n then Completed(ready.t, value) else Waiting
  {
    TreeCompletes(Source(ready, value, 0, false), n);
    hide PollUpTo;
  }

  /** What a tree does when it is polled up to n times is what it means. */
  lemma OutcomeIs(f: Fut, n: nat)
    requires Typed(f) && Fresh(f)
    ensures PollUpTo(f, 0, n).outcome == Promised(Meaning(f), n)
  {
    hide *;
    TreeCompletes(f, n);
  }

  /** `join` of any two trees in terms of what each does when polled alone as often: both values, the first on the
      left, at the later time. */
  lemma JoinOfSides(a: Fut, b: Fut, n: nat)
    requires Fresh(a) && Fresh(b) && Typed(a) && Typed(b)
    ensures var x, y := PollUpTo(a, 0, n).outcome, PollUpTo(b, 0, n).outcome;
            PollUpTo(Join(a, b, None, None), 0, n).outcome
            == if x.Completed? && y.Completed?
               then Completed(if x.at < y.at then y.at else x.at, Both(x.value, y.value))
               else Waiting
  {
    hide PollUpTo;
    OutcomeIs(a, n);
    OutcomeIs(b, n);
    OutcomeIs(Join(a, b, None, None), n);
  }

  /** `alt` of any two trees: at the earlier time the value of that side, in its place, or both if they are ready
      at once. */
  lemma AltOfSides(a: Fut, b: Fut, n: nat)
    requires Fresh(a) && Fresh(b) && Typed(a) && Typed(b)
    ensures var x, y := PollUpTo(a, 0, n).outcome, PollUpTo(b, 0, n).outcome;
            PollUpTo(Alt(a, b), 0, n).outcome
            == if x.Completed? && y.Completed? && x.at == y.at
               then Completed(x.at, Options(Some(x.value), Some(y.value)))
               else if x.Completed? && (y.Completed? ==> x.at < y.at) then Completed(x.at, Options(Some(x.value), None))
               else if y.Completed? then Completed(y.at, Options(None, Some(y.value)))
               else Waiting
  {
    hide PollUpTo;
    OutcomeIs(a, n);
    OutcomeIs(b, n);
    OutcomeIs(Alt(a, b), n);
  }

  /** `join_on_ok` of any two trees that produce results: an error of the strictly earlier side at once and alone, or
      both results at the later time. */
  lemma JoinOnOkOfSides(a: Fut, b: Fut, n: nat)
    requires Fresh(a) && Fresh(b) && Typed(JoinOnOk(a, b, None, None))
    ensures var x, y := PollUpTo(a, 0, n).outcome, PollUpTo(b, 0, n).outcome;
            PollUpTo(JoinOnOk(a, b, None, None), 0, n).outcome
            == if x.Completed? && x.value.Error? && (y.Completed? ==> x.at < y.at)
               then Completed(x.at, Options(Some(x.value), None))
               else if y.Completed? && y.value.Error? && (x.Completed? ==> y.at < x.at)
               then Completed(y.at, Options(None, Some(y.value)))
               else if x.Completed? && y.Completed?
               then Completed(if x.at < y.at then y.at else x.at, Options(Some(x.value), Some(y.value)))
               else Waiting
  {
    hide PollUpTo;
    OutcomeIs(a, n);
    OutcomeIs(b, n);
    OutcomeIs(JoinOnOk(a, b, None, None), n);
  }
}
