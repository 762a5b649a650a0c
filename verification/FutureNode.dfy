/** src/future_ext.rs: the combinators as objects whose `poll` advances their inner futures in place and
    fills and takes their slots. */
module FutureNodes {
  import opened Futures

  datatype Kind = SourceKind | AltKind | JoinKind | JoinOnOkKind

  class FutureNode {
    const kind: Kind
    const ready: Time
    const value: Val
    const first: FutureNode?
    const second: FutureNode?
    var polls: nat
    var done: bool
    var slot1: Maybe
    var slot2: Maybe
    ghost const Repr: set<object>

    /** The inner futures are owned: they and everything below them belong to this node alone. */
    ghost predicate Valid()
      reads this, Repr
      decreases Repr
    {
      && this in Repr
      && (kind != SourceKind ==>
            && first != null && second != null
            && first in Repr && second in Repr
            && first.Repr <= Repr && second.Repr <= Repr
            && this !in first.Repr && this !in second.Repr
            && first.Repr !! second.Repr
            && first.Valid() && second.Valid())
    }

    /** The tree of futures this node stands for. */
    ghost function Model(): Fut
      requires Valid()
      reads this, Repr
      decreases Repr
    {
      match kind
      case SourceKind => Source(ready, value, polls, done)
      case AltKind => Alt(first.Model(), second.Model())
      case JoinKind => Join(first.Model(), second.Model(), slot1, slot2)
      case JoinOnOkKind => JoinOnOk(first.Model(), second.Model(), slot1, slot2)
    }

    constructor FromSource(ready: Time, value: Val)
      ensures Valid() && fresh(Repr) && Model() == Source(ready, value, 0, false) && Fresh(Model())
    {
      kind, this.ready, this.value := SourceKind, ready, value;
      first, second, polls, done, slot1, slot2 := null, null, 0, false, None, None;
      Repr := {this};
    }

    /** `alt`, `join` and `join_on_ok` take ownership of their inner futures. */
    constructor Combine(kind: Kind, f1: FutureNode, f2: FutureNode)
      requires kind != SourceKind && f1.Valid() && f2.Valid() && f1.Repr !! f2.Repr
      ensures Valid() && fresh(Repr - f1.Repr - f2.Repr)
      ensures kind == AltKind ==> Model() == Alt(f1.Model(), f2.Model())
      ensures kind == JoinKind ==> Model() == Join(f1.Model(), f2.Model(), None, None)
      ensures kind == JoinOnOkKind ==> Model() == JoinOnOk(f1.Model(), f2.Model(), None, None)
    {
      this.kind, ready, value := kind, Never, Plain(0);
      first, second, polls, done, slot1, slot2 := f1, f2, 0, false, None, None;
      Repr := {this} + f1.Repr + f2.Repr;
    }

    /** The poll of a source: opaque in the original, here ready from a given poll of the root on. */
    method PollSource(now: nat) returns (r: Poll)
      requires Valid() && kind == SourceKind
      modifies this
      ensures Valid() && Polled(Model(), r) == PollAt(old(Model()), now)
    {
      if done {
        return Misuse;
      }
      polls := polls + 1;
      if ready.At? && ready.t <= now {
        done := true;
        return Ready(value);
      }
      return Pending;
    }

    /** The first slot is filled, and the second future has been polled. */
    method TakeFirst(b: Poll) returns (r: Poll)
      requires slot1.Some?
      modifies this`slot1
      ensures !b.Ready? ==> r == b && slot1 == old(slot1)
      ensures b.Ready? ==>
                && slot1 == None
                && r == Ready(if kind == JoinKind then Both(old(slot1).v, b.value)
                              else Options(Some(Okay(old(slot1).v)), Some(b.value)))
    {
      if !b.Ready? {
        return b;
      }
      r := Ready(if kind == JoinKind then Both(slot1.v, b.value) else Options(Some(Okay(slot1.v)), Some(b.value)));
      slot1 := None;
    }

    /** The second slot is filled, and the first future has been polled. */
    method TakeSecond(a: Poll) returns (r: Poll)
      requires slot2.Some?
      modifies this`slot2
      ensures !a.Ready? ==> r == a && slot2 == old(slot2)
      ensures a.Ready? ==>
                && slot2 == None
                && r == Ready(if kind == JoinKind then Both(a.value, old(slot2).v)
                              else Options(Some(a.value), Some(Okay(old(slot2).v))))
    {
      if !a.Ready? {
        return a;
      }
      r := Ready(if kind == JoinKind then Both(a.value, slot2.v) else Options(Some(a.value), Some(Okay(slot2.v))));
      slot2 := None;
    }

    /** The last arm of `join`. */
    method StoreJoin(a: Poll, b: Poll) returns (r: Poll)
      requires slot1.None? && slot2.None?
      modifies this`slot1, this`slot2
      ensures Joined(slot1, slot2, r) == JoinResult(a, b)
    {
      match (a, b)
      case (Misuse, _) => r := Misuse;
      case (_, Misuse) => r := Misuse;
      case (Ready(v1), Ready(v2)) => r := Ready(Both(v1, v2));
      case (Ready(v1), Pending) =>
        slot1 := Some(v1);
        r := Pending;
      case (Pending, Ready(v2)) =>
        slot2 := Some(v2);
        r := Pending;
      case (Pending, Pending) => r := Pending;
    }

    /** The last arm of `join_on_ok`. */
    method StoreJoinOnOk(a: Poll, b: Poll) returns (r: Poll)
      requires slot1.None? && slot2.None?
      modifies this`slot1, this`slot2
      ensures Joined(slot1, slot2, r) == JoinOnOkResult(a, b)
    {
      match (a, b)
      case (Misuse, _) => r := Misuse;
      case (_, Misuse) => r := Misuse;
      case (Ready(v1), Ready(v2)) => r := Ready(Options(Some(v1), Some(v2)));
      case (Ready(Okay(v1)), Pending) =>
        slot1 := Some(v1);
        r := Pending;
      case (Ready(e1), Pending) => r := Ready(Options(Some(e1), None));
      case (Pending, Ready(Okay(v2))) =>
        slot2 := Some(v2);
        r := Pending;
      case (Pending, Ready(e2)) => r := Ready(Options(None, Some(e2)));
      case (Pending, Pending) => r := Pending;
    }

    /** Polls the first future; the second and this node stay as they are. */
    method PollFirst(now: nat) returns (a: Poll)
      requires Valid() && kind != SourceKind
      modifies first.Repr
      ensures Valid()
      ensures Polled(first.Model(), a) == PollAt(old(first.Model()), now) && second.Model() == old(second.Model())
      decreases Repr, 0
    {
      a := first.Poll(now);
    }

    /** Polls the second future; the first and this node stay as they are. */
    method PollSecond(now: nat) returns (b: Poll)
      requires Valid() && kind != SourceKind
      modifies second.Repr
      ensures Valid()
      ensures first.Model() == old(first.Model()) && Polled(second.Model(), b) == PollAt(old(second.Model()), now)
      decreases Repr, 0
    {
      b := second.Poll(now);
    }

    method Poll(now: nat) returns (r: Poll)
      requires Valid()
      modifies Repr
      ensures Valid()
      ensures Polled(Model(), r) == PollAt(old(Model()), now)
      decreases Repr, 1
    {
      if kind == SourceKind {
        r := PollSource(now);
      } else if kind == AltKind {
        var a := PollFirst(now);
        var b := PollSecond(now);
        match (a, b)
        case (Misuse, _) => r := Misuse;
        case (_, Misuse) => r := Misuse;
        case (Pending, Pending) => r := Pending;
        case (Pending, Ready(v2)) => r := Ready(Options(None, Some(v2)));
        case (Ready(v1), Pending) => r := Ready(Options(Some(v1), None));
        case (Ready(v1), Ready(v2)) => r := Ready(Options(Some(v1), Some(v2)));
      } else if slot1.Some? && slot2.Some? {
        r := Misuse;  // unreachable!()
      } else if slot1.Some? {
        var b := PollSecond(now);
        r := TakeFirst(b);
      } else if slot2.Some? {
        var a := PollFirst(now);
        r := TakeSecond(a);
      } else {
        var a := PollFirst(now);
        var b := PollSecond(now);
        if kind == JoinKind {
          r := StoreJoin(a, b);
        } else {
          r := StoreJoinOnOk(a, b);
        }
      }
    }
  }

  /** Polling the root again and again, from poll `from` on, at most n times and no more once it answers. A tree
      that has not been polled completes at the poll and with the value that it means. */
  method PollRepeatedly(root: FutureNode, from: nat, n: nat) returns (r: Outcome)
    requires root.Valid()
    modifies root.Repr
    ensures root.Valid() && Ran(root.Model(), r) == PollUpTo(old(root.Model()), from, n)
    ensures from == 0 && Typed(old(root.Model())) && Fresh(old(root.Model()))
            ==> r == Promised(Meaning(old(root.Model())), n)
  {
    hide PollAt, Typed, Fresh, Meaning;
    ghost var f := root.Model();
    if from == 0 && Typed(f) && Fresh(f) {
      TreeCompletes(f, n);
    }
    ghost var end := PollUpTo(f, from, n);
    for i := 0 to n
      invariant root.Valid() && PollUpTo(root.Model(), from + i, n - i) == end
    {
      var p := root.Poll(from + i);
      match p
      case Ready(v) => return Completed(from + i, v);
      case Misuse => return Panicked;
      case Pending =>
    }
    return Waiting;
  }

  /** `join` of two futures of any shape that have not been polled, polled up to n times: both values, that of f1 on
      the left, at the later of the times at which the two complete on their own. */
  method RunJoin(f1: FutureNode, f2: FutureNode, n: nat) returns (r: Outcome)
    requires f1.Valid() && f2.Valid() && f1.Repr !! f2.Repr && Fresh(f1.Model()) && Fresh(f2.Model())
    requires Typed(f1.Model()) && Typed(f2.Model())
    modifies f1.Repr, f2.Repr
    ensures var x := PollUpTo(old(f1.Model()), 0, n).outcome;
            var y := PollUpTo(old(f2.Model()), 0, n).outcome;
            r == if x.Completed? && y.Completed?
                 then Completed(if x.at < y.at then y.at else x.at, Both(x.value, y.value))
                 else Waiting
  {
    hide PollUpTo, Fresh, Typed, Meaning, Promised;
    JoinOfSides(f1.Model(), f2.Model(), n);
    var root := new FutureNode.Combine(JoinKind, f1, f2);
    r := PollRepeatedly(root, 0, n);
  }

  /** `alt` of two such futures: at the earlier time the value of that side, f1's on the left, or both at once. */
  method RunAlt(f1: FutureNode, f2: FutureNode, n: nat) returns (r: Outcome)
    requires f1.Valid() && f2.Valid() && f1.Repr !! f2.Repr && Fresh(f1.Model()) && Fresh(f2.Model())
    requires Typed(f1.Model()) && Typed(f2.Model())
    modifies f1.Repr, f2.Repr
    ensures var x := PollUpTo(old(f1.Model()), 0, n).outcome;
            var y := PollUpTo(old(f2.Model()), 0, n).outcome;
            r == if x.Completed? && y.Completed? && x.at == y.at
                 then Completed(x.at, Options(Some(x.value), Some(y.value)))
                 else if x.Completed? && (y.Completed? ==> x.at < y.at)
                 then Completed(x.at, Options(Some(x.value), None))
                 else if y.Completed? then Completed(y.at, Options(None, Some(y.value)))
                 else Waiting
  {
    hide PollUpTo, Fresh, Typed, Meaning, Promised;
    AltOfSides(f1.Model(), f2.Model(), n);
    var root := new FutureNode.Combine(AltKind, f1, f2);
    r := PollRepeatedly(root, 0, n);
  }

  /** `join_on_ok` of two such futures that produce results: the error of the strictly earlier side alone, or both
      results at the later time. */
  method RunJoinOnOk(f1: FutureNode, f2: FutureNode, n: nat) returns (r: Outcome)
    requires f1.Valid() && f2.Valid() && f1.Repr !! f2.Repr && Fresh(f1.Model()) && Fresh(f2.Model())
    requires Typed(JoinOnOk(f1.Model(), f2.Model(), None, None))
    modifies f1.Repr, f2.Repr
    ensures var x := PollUpTo(old(f1.Model()), 0, n).outcome;
            var y := PollUpTo(old(f2.Model()), 0, n).outcome;
            r == if x.Completed? && x.value.Error? && (y.Completed? ==> x.at < y.at)
                 then Completed(x.at, Options(Some(x.value), None))
                 else if y.Completed? && y.value.Error? && (x.Completed? ==> y.at < x.at)
                 then Completed(y.at, Options(None, Some(y.value)))
                 else if x.Completed? && y.Completed?
                 then Completed(if x.at < y.at then y.at else x.at, Options(Some(x.value), Some(y.value)))
                 else Waiting
  {
    hide PollUpTo, Fresh, Typed, Meaning, Promised;
    JoinOnOkOfSides(f1.Model(), f2.Model(), n);
    var root := new FutureNode.Combine(JoinOnOkKind, f1, f2);
    r := PollRepeatedly(root, 0, n);
  }
}
