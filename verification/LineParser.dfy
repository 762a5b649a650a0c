/** src/http_parse/line_parser.rs: the incremental line parser as written, and exactly when it agrees with
    splitting the whole stream. */
module LineParsers {
  import opened Bytes
  import opened Lines

  /** The fields of `LineParser`. */
  datatype State = State(buf: seq<byte>, sawReturn: bool)

  const FRESH := State([], false)

  datatype Answer = NoLine | Line(line: seq<byte>, count: nat) | Panic

  datatype Called = Called(answer: Answer, next: State)

  /** `saw_return` after the scanning loop has passed over data. */
  function SawAfter(saw: bool, data: seq<byte>): bool {
    if data == [] then saw else EndsInCr(data)
  }

  /** One call of `parse_line_http`: a pending CR is completed by an LF only if more bytes follow, and what
      is removed for it is the last byte of `buf`, which panics when there is none. */
  function ParseLine(p: State, data: seq<byte>): Called {
    var i := FirstCrlf(data);
    if p.sawReturn && |data| > 1 && data[0] == LF then
      if p.buf == [] then Called(Panic, State([], true))
      else Called(Line(p.buf[..|p.buf| - 1], 1), State([], true))
    else if i != -1 then Called(Line(p.buf + data[..i], i + 2), State([], SawAfter(p.sawReturn, data[..i])))
    else Called(NoLine, State(p.buf + data, SawAfter(p.sawReturn, data)))
  }

  class LineParser {
    var buf: seq<byte>
    var sawReturn: bool

    constructor ()
      ensures Value() == FRESH
    {
      buf, sawReturn := [], false;
    }

    ghost function Value(): State
      reads this
    {
      State(buf, sawReturn)
    }

    method ParseLineHttp(data: seq<byte>) returns (r: Answer)
      modifies this
      ensures Called(r, Value()) == ParseLine(old(Value()), data)
    {
      if sawReturn && |data| > 1 && data[0] == LF {
        var line := buf;
        buf := [];
        if line == [] {
          return Panic;  // r.remove(r.len() - 1)
        }
        return Line(line[..|line| - 1], 1);
      }
      var pos := -1;
      for i := 0 to |data|
        invariant pos == -1 && buf == old(buf)
        invariant forall j :: 0 <= j < i ==> !CrlfAt(data, j)
        invariant sawReturn == SawAfter(old(sawReturn), data[..i])
      {
        if data[i] == CR {
          if i + 1 < |data| && data[i + 1] == LF {
            pos := i + 2;
            FirstIs(data, i);
            break;
          } else {
            sawReturn := true;
          }
        } else {
          sawReturn := false;
        }
      }
      if pos != -1 {
        var line := buf;
        buf := [];
        return Line(line + data[..pos - 2], pos);
      }
      assert data[..|data|] == data;
      buf := buf + data;
      return NoLine;
    }
  }

  /** A returned count lies between 1 and the length offered, so a driver that re-offers the rest ends. */
  lemma CountInRange(p: State, data: seq<byte>)
    ensures ParseLine(p, data).answer.Line? ==> 1 <= ParseLine(p, data).answer.count <= |data|
  {
  }

  // -- One call --------------------------------------------------------------------------------

  lemma CrlfIsNew(buf: seq<byte>, data: seq<byte>)
    requires CrlfFree(buf) && FirstCrlf(buf + data) != -1
    ensures FirstCrlf(buf + data) + 2 > |buf|
  {
    var i := FirstCrlf(buf + data);
    assert i + 2 <= |buf| ==> CrlfAt(buf, i);
  }

  /** What a call should answer: the first line of what is pending and offered. */
  function Expected(buf: seq<byte>, data: seq<byte>): Answer
    requires CrlfFree(buf)
  {
    var i := FirstCrlf(buf + data);
    if i == -1 then NoLine
    else
      CrlfIsNew(buf, data);
      Line((buf + data)[..i], i + 2 - |buf|)
  }

  function ExpectedBuf(buf: seq<byte>, data: seq<byte>): seq<byte> {
    if FirstCrlf(buf + data) == -1 then buf + data else []
  }

  /** The states met as long as nothing has gone wrong: `buf` is an unfinished line, and `saw_return` says
      whether it ends in CR - but may be stale while `buf` is empty. */
  predicate Reachable(p: State) {
    CrlfFree(p.buf) && (p.buf != [] ==> (p.sawReturn <==> EndsInCr(p.buf)))
  }

  /** The two calls that go wrong: a lone LF behind a pending CR, and an LF with more behind it while
      `saw_return` is stale. */
  predicate Hazard(p: State, data: seq<byte>) {
    p.sawReturn && data != [] && data[0] == LF && (|data| == 1 <==> p.buf != [])
  }

  lemma FirstAcross(buf: seq<byte>, data: seq<byte>)
    requires CrlfFree(buf)
    ensures EndsInCr(buf) && data != [] && data[0] == LF ==> FirstCrlf(buf + data) == |buf| - 1
    ensures !(EndsInCr(buf) && data != [] && data[0] == LF) ==>
              FirstCrlf(buf + data) == if FirstCrlf(data) == -1 then -1 else |buf| + FirstCrlf(data)
  {
    var s := buf + data;
    forall j | CrlfAt(s, j) ensures j >= |buf| - 1 {
      if j < |buf| - 1 {
        assert CrlfAt(buf, j);
      }
    }
    forall j | CrlfAt(s, j) && j >= |buf| ensures CrlfAt(data, j - |buf|) {
    }
    if EndsInCr(buf) && data != [] && data[0] == LF {
      FirstIs(s, |buf| - 1);
    } else if FirstCrlf(data) != -1 {
      FirstIs(s, |buf| + FirstCrlf(data));
    }
  }

  lemma SawIsEndsInCr(p: State, data: seq<byte>)
    requires p.buf == [] || (p.sawReturn <==> EndsInCr(p.buf))
    ensures p.buf + data != []
            ==> (SawAfter(p.sawReturn, data) <==> EndsInCr(p.buf + data)) || (p.buf == [] && data == [])
  {
  }

  /** From every reachable state a call answers and keeps what it should exactly when it is no hazard; and
      then the next state is reachable. */
  lemma CallAgreesIff(p: State, data: seq<byte>)
    requires Reachable(p)
    ensures ParseLine(p, data).answer == Expected(p.buf, data)
            && ParseLine(p, data).next.buf == ExpectedBuf(p.buf, data)
            <==> !Hazard(p, data)
    ensures !Hazard(p, data) ==> Reachable(ParseLine(p, data).next)
  {
    FirstAcross(p.buf, data);
    SawIsEndsInCr(p, data);
    hide FirstCrlf;
    var i := FirstCrlf(data);
    if i != -1 {
      assert (p.buf + data)[..|p.buf| + i] == p.buf + data[..i];
    }
  }

  // -- A whole run -----------------------------------------------------------------------------

  /** What a driver gets out of the parser by re-offering what it has not consumed. */
  datatype Driven = Driven(lines: seq<seq<byte>>, state: State, panicked: bool)

  function Drive(p: State, data: seq<byte>): Driven
    decreases |data|
  {
    CountInRange(p, data);
    var c := ParseLine(p, data);
    match c.answer
    case NoLine => Driven([], c.next, false)
    case Panic => Driven([], c.next, true)
    case Line(l, k) =>
      var d := Drive(c.next, data[k..]);
      Driven([l] + d.lines, d.state, d.panicked)
  }

  function DriveAll(p: State, chunks: seq<seq<byte>>): Driven
    decreases |chunks|
  {
    if chunks == [] then Driven([], p, false)
    else
      var d := Drive(p, chunks[0]);
      if d.panicked then d
      else
        var e := DriveAll(d.state, chunks[1..]);
        Driven(d.lines + e.lines, e.state, e.panicked)
  }

  /** What a driver does with a chunk, on the object. */
  method ParseChunk(parser: LineParser, chunk: seq<byte>) returns (lines: seq<seq<byte>>, panicked: bool)
    modifies parser
    ensures Driven(lines, parser.Value(), panicked) == Drive(old(parser.Value()), chunk)
  {
    hide ParseLine;
    lines := [];
    var start := 0;
    while true
      invariant 0 <= start <= |chunk|
      invariant var d := Drive(parser.Value(), chunk[start..]);
                Driven(lines + d.lines, d.state, d.panicked) == Drive(old(parser.Value()), chunk)
      decreases |chunk| - start
    {
      CountInRange(parser.Value(), chunk[start..]);
      var a := parser.ParseLineHttp(chunk[start..]);
      match a
      case NoLine => return lines, false;
      case Panic => return lines, true;
      case Line(l, k) =>
        assert chunk[start..][k..] == chunk[start + k..];
        lines, start := lines + [l], start + k;
    }
  }

  /** And with all chunks of a stream. */
  method ParseChunks(parser: LineParser, chunks: seq<seq<byte>>) returns (lines: seq<seq<byte>>, panicked: bool)
    modifies parser
    ensures Driven(lines, parser.Value(), panicked) == DriveAll(old(parser.Value()), chunks)
  {
    hide Drive;
    lines, panicked := [], false;
    for i := 0 to |chunks|
      invariant !panicked
      invariant var d := DriveAll(parser.Value(), chunks[i..]);
                Driven(lines + d.lines, d.state, d.panicked) == DriveAll(old(parser.Value()), chunks)
    {
      assert chunks[i..][0] == chunks[i] && chunks[i..][1..] == chunks[i + 1..];
      var more;
      more, panicked := ParseChunk(parser, chunks[i]);
      lines := lines + more;
      if panicked {
        return;
      }
    }
  }

  /** No call made while data is driven is a hazard. */
  predicate Smooth(p: State, data: seq<byte>)
    decreases |data|
  {
    CountInRange(p, data);
    var c := ParseLine(p, data);
    !Hazard(p, data) && (c.answer.Line? ==> Smooth(c.next, data[c.answer.count..]))
  }

  predicate SmoothAll(p: State, chunks: seq<seq<byte>>)
    decreases |chunks|
  {
    chunks == [] || (Smooth(p, chunks[0]) && SmoothAll(Drive(p, chunks[0]).state, chunks[1..]))
  }

  /** The driver has got the lines of the stream and the parser keeps the unfinished one. */
  predicate Right(d: Driven, stream: seq<byte>) {
    !d.panicked && d.lines == Split(stream).lines && d.state.buf == Split(stream).rest
  }

  lemma DriveStep(p: State, data: seq<byte>)
    ensures var c := ParseLine(p, data);
            var d := Drive(p, data);
            if c.answer.Line? then
              && 1 <= c.answer.count <= |data|
              && var e := Drive(c.next, data[c.answer.count..]);
                 (Smooth(p, data) <==> !Hazard(p, data) && Smooth(c.next, data[c.answer.count..]))
                 && d == Driven([c.answer.line] + e.lines, e.state, e.panicked)
            else (Smooth(p, data) <==> !Hazard(p, data)) && d == Driven([], c.next, c.answer.Panic?)
  {
    CountInRange(p, data);
    hide ParseLine, Hazard;
  }

  lemma ReachableIsFree(p: State)
    requires Reachable(p)
    ensures CrlfFree(p.buf)
  {
  }

  lemma ExpectedLine(buf: seq<byte>, data: seq<byte>)
    requires CrlfFree(buf) && Expected(buf, data).Line?
    ensures |buf| <= FirstCrlf(buf + data) + 2 <= |buf + data|
    ensures Expected(buf, data).count == FirstCrlf(buf + data) + 2 - |buf| && ExpectedBuf(buf, data) == []
  {
    hide FirstCrlf;
  }

  lemma DropAcross(a: seq<byte>, b: seq<byte>, n: nat)
    requires |a| <= n <= |a + b|
    ensures (a + b)[n..] == b[n - |a|..]
  {
  }

  lemma LineIsFirst(p: State, data: seq<byte>)
    requires CrlfFree(p.buf) && ParseLine(p, data).answer == Expected(p.buf, data) && ParseLine(p, data).answer.Line?
    requires ParseLine(p, data).next.buf == ExpectedBuf(p.buf, data)
    ensures var k := ParseLine(p, data).answer.count;
            1 <= k <= |data| && (p.buf + data)[FirstCrlf(p.buf + data) + 2..] == data[k..]
    ensures ParseLine(p, data).next.buf == []
  {
    hide *;
    CountInRange(p, data);
    ExpectedLine(p.buf, data);
    DropAcross(p.buf, data, FirstCrlf(p.buf + data) + 2);
  }

  lemma RightWithLine(p: State, data: seq<byte>)
    requires CrlfFree(p.buf) && ParseLine(p, data).answer.Line? && ParseLine(p, data).answer == Expected(p.buf, data)
    requires var k := ParseLine(p, data).answer.count;
             1 <= k <= |data| && (p.buf + data)[FirstCrlf(p.buf + data) + 2..] == data[k..]
             && Right(Drive(ParseLine(p, data).next, data[k..]), data[k..])
    ensures Right(Drive(p, data), p.buf + data)
  {
    SplitStep(p.buf + data);
    hide ParseLine, FirstCrlf, Split;
  }

  lemma RightWithout(p: State, data: seq<byte>)
    requires CrlfFree(p.buf) && !ParseLine(p, data).answer.Line? && ParseLine(p, data).answer == Expected(p.buf, data)
    requires ParseLine(p, data).next.buf == ExpectedBuf(p.buf, data)
    ensures Right(Drive(p, data), p.buf + data)
  {
    SplitStep(p.buf + data);
    hide ParseLine, FirstCrlf, Split;
  }

  lemma {:induction false} SmoothIsRight(p: State, data: seq<byte>)
    requires Reachable(p) && Smooth(p, data)
    ensures Right(Drive(p, data), p.buf + data)
    ensures Reachable(Drive(p, data).state)
    decreases |data|
  {
    ReachableIsFree(p);
    hide *;
    DriveStep(p, data);
    CallAgreesIff(p, data);
    SplitStep(p.buf + data);
    var c := ParseLine(p, data);
    if c.answer.Line? {
      LineIsFirst(p, data);
      SmoothIsRight(c.next, data[c.answer.count..]);
      assert [] + data[c.answer.count..] == data[c.answer.count..];
      RightWithLine(p, data);
    } else {
      RightWithout(p, data);
    }
  }

  lemma NothingToSplit(p: State)
    requires Reachable(p)
    ensures Split(p.buf) == Lines([], p.buf)
  {
  }

  lemma {:induction false} SmoothAllIsRight(p: State, chunks: seq<seq<byte>>)
    requires Reachable(p) && SmoothAll(p, chunks)
    ensures Right(DriveAll(p, chunks), p.buf + Flatten(chunks))
    decreases |chunks|
  {
    hide Split, FirstCrlf, Drive, Smooth, Reachable;
    if chunks == [] {
      assert p.buf + [] == p.buf;
      NothingToSplit(p);
    } else {
      var d := Drive(p, chunks[0]);
      SmoothIsRight(p, chunks[0]);
      SmoothAllIsRight(d.state, chunks[1..]);
      SplitConcat(p.buf + chunks[0], Flatten(chunks[1..]));
      assert p.buf + (chunks[0] + Flatten(chunks[1..])) == p.buf + chunks[0] + Flatten(chunks[1..]);
    }
  }

  /** A CR LF has been missed. */
  predicate Spoilt(p: State) {
    !CrlfFree(p.buf) && (p.sawReturn <==> EndsInCr(p.buf))
  }

  /** Something in d cannot come from splitting: it panicked, or a CR LF is inside a line or in `buf`. */
  predicate Tainted(d: Driven) {
    d.panicked || (exists l :: l in d.lines && !CrlfFree(l)) || Spoilt(d.state)
  }

  lemma ContainsCrlf(s: seq<byte>, i: int)
    requires CrlfAt(s, i)
    ensures !CrlfFree(s)
  {
  }

  /** A missed CR LF stays: it comes out inside a line, or remains in `buf`. */
  lemma SpoiltStays(p: State, data: seq<byte>)
    requires Spoilt(p)
    ensures Tainted(Drive(p, data))
  {
    var i := FirstCrlf(p.buf);
    var c := ParseLine(p, data);
    SawIsEndsInCr(p, data);
    match c.answer
    case Panic =>
    case NoLine =>
      ContainsCrlf(p.buf + data, i);
    case Line(l, k) =>
      ContainsCrlf(l, i);
      CountInRange(p, data);
      assert Drive(p, data).lines[0] == l;
  }

  lemma {:induction false} SpoiltStaysAll(p: State, chunks: seq<seq<byte>>)
    requires Spoilt(p)
    ensures Tainted(DriveAll(p, chunks))
    decreases |chunks|
  {
    if chunks != [] {
      SpoiltStays(p, chunks[0]);
      var d := Drive(p, chunks[0]);
      hide Drive, Spoilt, CrlfFree;
      if !d.panicked && Spoilt(d.state) {
        SpoiltStaysAll(d.state, chunks[1..]);
      }
      var e := DriveAll(d.state, chunks[1..]);
      assert forall l :: l in d.lines ==> l in d.lines + e.lines;
      assert forall l :: l in e.lines ==> l in d.lines + e.lines;
    }
  }

  lemma {:induction false} RoughIsTainted(p: State, data: seq<byte>)
    requires Reachable(p) && !Smooth(p, data)
    ensures Tainted(Drive(p, data))
    decreases |data|
  {
    CallAgreesIff(p, data);
    CountInRange(p, data);
    var c := ParseLine(p, data);
    if Hazard(p, data) {
      if p.buf != [] {
        ContainsCrlf(p.buf + data, |p.buf| - 1);
      }
    } else {
      hide ParseLine, FirstCrlf, Hazard, Reachable, Spoilt, CrlfFree;
      RoughIsTainted(c.next, data[c.answer.count..]);
      var e := Drive(c.next, data[c.answer.count..]);
      assert forall l :: l in e.lines ==> l in [c.answer.line] + e.lines;
    }
  }

  lemma {:induction false} RoughAllIsTainted(p: State, chunks: seq<seq<byte>>)
    requires Reachable(p) && !SmoothAll(p, chunks)
    ensures Tainted(DriveAll(p, chunks))
    decreases |chunks|
  {
    hide Drive, Smooth, Reachable, Spoilt, CrlfFree, Right;
    var d := Drive(p, chunks[0]);
    var e := DriveAll(d.state, chunks[1..]);
    if Smooth(p, chunks[0]) {
      SmoothIsRight(p, chunks[0]);
      RoughAllIsTainted(d.state, chunks[1..]);
    } else {
      RoughIsTainted(p, chunks[0]);
      if !d.panicked && Spoilt(d.state) {
        SpoiltStaysAll(d.state, chunks[1..]);
      }
    }
    assert forall l :: l in d.lines ==> l in d.lines + e.lines;
    assert forall l :: l in e.lines ==> l in d.lines + e.lines;
  }

  /** For every chunking of every stream, driving the parser gives the lines of splitting the whole stream at
      CR LF, with the bytes behind the last CR LF left in `buf`, if and only if no call of the run is a hazard. */
  lemma SmoothIffRight(chunks: seq<seq<byte>>)
    ensures Right(DriveAll(FRESH, chunks), Flatten(chunks)) <==> SmoothAll(FRESH, chunks)
  {
    assert [] + Flatten(chunks) == Flatten(chunks);
    if SmoothAll(FRESH, chunks) {
      SmoothAllIsRight(FRESH, chunks);
    } else {
      RoughAllIsTainted(FRESH, chunks);
      hide DriveAll, SmoothAll;
    }
  }
}
