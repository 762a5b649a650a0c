/** When the header assembler of src/http_parse/mod.rs hands over, and with which line count, whether or not
    chunks cut lines in two. Only the bytes handed over depend on that (`HeaderParsers`). */
module HeaderTimings {
  import opened Bytes
  import opened Lines
  import opened LineParsers
  import opened LineRuns
  import opened HeaderParsers

  /** All chunks offered, as long as each call asks for more. */
  function Feed(h: Header, chunks: seq<seq<byte>>): Parsed
    decreases |chunks|
  {
    if chunks == [] then Parsed(NeedsMore, h)
    else
      var p := Assemble(h, chunks[0]);
      if p.result.NeedsMore? then Feed(p.next, chunks[1..]) else p
  }

  /** How many bytes of its input a call has taken as lines when it ends. */
  function Taken(h: Header, input: seq<byte>): (n: nat)
    ensures n <= |input|
    decreases |input|
  {
    CountInRange(h.lineParser, input);
    var c := ParseLine(h.lineParser, input);
    match c.answer
    case Line(l, k) =>
      if l == [] then k else k + Taken(Header(h.data + input[..k], h.linesCnt + 1, c.next), input[k..])
    case _ => 0
  }

  lemma TakenStep(h: Header, input: seq<byte>)
    ensures var c := ParseLine(h.lineParser, input);
            c.answer.Line? ==>
              var k := c.answer.count;
              && 1 <= k <= |input|
              && Taken(h, input) ==
                 if c.answer.line == [] then k
                 else k + Taken(Header(h.data + input[..k], h.linesCnt + 1, c.next), input[k..])
  {
    CountInRange(h.lineParser, input);
    hide ParseLine;
  }

  lemma NoneTaken(h: Header, input: seq<byte>)
    requires !ParseLine(h.lineParser, input).answer.Line?
    ensures Taken(h, input) == 0
  {
    hide ParseLine;
  }

  /** What reaches `data` of a call's input is what the call has taken as lines, and nothing of the rest. */
  lemma {:induction false} DataIsTaken(h: Header, input: seq<byte>)
    ensures var p := Assemble(h, input);
            && p.next.data == h.data + input[..Taken(h, input)]
            && (p.result.Handed? ==> p.result.data == h.data + input[..Taken(h, input)])
    decreases |input|
  {
    hide *;
    AssembleStep(h, input);
    TakenStep(h, input);
    var c := ParseLine(h.lineParser, input);
    if c.answer.Line? && c.answer.line != [] {
      var k := c.answer.count;
      var next := Header(h.data + input[..k], h.linesCnt + 1, c.next);
      DataIsTaken(next, input[k..]);
      SlicesJoin(h.data, input, k, Taken(next, input[k..]));
    } else if !c.answer.Line? {
      NoneTaken(h, input);
      assert h.data + input[..0] == h.data;
    }
  }

  /** How far into the stream a run has taken lines when a call ends it, if its first call begins at n. */
  function HandedEnd(h: Header, n: nat, chunks: seq<seq<byte>>): nat
    decreases |chunks|
  {
    if chunks == [] then n
    else
      var p := Assemble(h, chunks[0]);
      if p.result.NeedsMore? then HandedEnd(p.next, n + |chunks[0]|, chunks[1..]) else n + Taken(h, chunks[0])
  }

  /** A run without the bytes it hands over: how it ends, in which call, and the header capacity. */
  function Timing(r: Run): Run {
    if r.RunHanded? then r.(data := []) else r
  }

  /** Where the header block of a stream ends, or the stream itself. */
  function BlockEnd(s: seq<byte>): (n: nat)
    ensures n <= |s|
  {
    match BlockOf(s)
    case Incomplete => |s|
    case Complete(n, _) => n
  }

  // -- As long as nothing goes wrong -----------------------------------------------------------

  /** Where the unfinished line of the parser begins, after n bytes. */
  function Begun(h: Header, n: nat): int { n - |h.lineParser.buf| }

  /** The parser tracks the stream, no line has been empty yet, and every line has been counted. */
  ghost predicate InTime(h: Header, s: seq<byte>, cuts: set<int>, n: nat) {
    && Tracks(h.lineParser, s, cuts, n) && 0 <= Begun(h, n) <= n <= |s|
    && BlockOf(s[..Begun(h, n)]).Incomplete?
    && h.linesCnt == |Split(s[..Begun(h, n)]).lines|
  }

  lemma BegunAtLineEnd(h: Header, s: seq<byte>, cuts: set<int>, n: nat)
    requires Tracks(h.lineParser, s, cuts, n)
    ensures 0 <= Begun(h, n) <= n <= |s| && AtLineEnd(s[..Begun(h, n)]) && s[Begun(h, n)..n] == h.lineParser.buf
    ensures CrlfFree(h.lineParser.buf)
  {
    hide Stale, FirstCrlf;
  }

  lemma InTimeAtEnd(h: Header, s: seq<byte>, cuts: set<int>, n: nat)
    requires InTime(h, s, cuts, n)
    ensures BlockOf(s[..n]).Incomplete? && h.linesCnt == |Split(s[..n]).lines|
  {
    hide Stale, Split, BlockOf, FirstCrlf;
    var m := Begun(h, n);
    var buf := h.lineParser.buf;
    BegunAtLineEnd(h, s, cuts, n);
    assert s[..m] + buf == s[..n];
    BlockShifts(s[..m], buf);
    BlockStep(buf);
    SplitConcat(s[..m], buf);
    LineEndIff(s[..m]);
    assert [] + buf == buf;
    SplitStep(buf);
  }

  /** The block of the stream up to b begins with the lines counted and goes on with what is pending. */
  lemma BlockAhead(h: Header, s: seq<byte>, cuts: set<int>, n: nat, b: nat)
    requires InTime(h, s, cuts, n) && n <= b <= |s|
    ensures var m := Begun(h, n);
            BlockOf(s[..b]) == match BlockOf(s[m..b])
                               case Incomplete => Incomplete
                               case Complete(x, k) => Complete(m + x, h.linesCnt + k)
  {
    hide Tracks, Split, BlockOf;
    BegunAtLineEnd(h, s, cuts, n);
    var m := Begun(h, n);
    assert s[..m] + s[m..b] == s[..b];
    BlockShifts(s[..m], s[m..b]);
    hide *;
  }

  /** One more line behind those counted. */
  lemma NextLine(s: seq<byte>, m: nat, e: nat)
    requires m + 2 < e <= |s| && AtLineEnd(s[..m]) && BlockOf(s[..m]).Incomplete?
    requires FirstCrlf(s[m..e]) == e - m - 2
    ensures BlockOf(s[..e]).Incomplete? && |Split(s[..e]).lines| == |Split(s[..m]).lines| + 1
  {
    hide *;
    LastIsLf(s[..m]);
    OneMoreLine(s[..m], s[m..e]);
    BlockOfLine(s[m..e]);
    BlockShifts(s[..m], s[m..e]);
    assert s[..m] + s[m..e] == s[..e];
  }

  lemma InTimeTracks(h: Header, s: seq<byte>, cuts: set<int>, n: nat)
    requires InTime(h, s, cuts, n)
    ensures Tracks(h.lineParser, s, cuts, n) && 0 <= Begun(h, n) <= n <= |s|
    ensures BlockOf(s[..Begun(h, n)]).Incomplete? && h.linesCnt == |Split(s[..Begun(h, n)]).lines|
  {
    hide Tracks, BlockOf, Split;
  }

  lemma EndsBeyond(a: seq<byte>, b: seq<byte>)
    requires BlockOf(a).Incomplete? && b != []
    ensures |a| < BlockEnd(a + b)
  {
    if BlockOf(a + b).Complete? {
      BlockPastFront(a, b);
    }
    hide BlockOf;
  }

  /** No byte of a chunk before the end of the block is dangerous: the call is no hazard. */
  lemma NoHazard(h: Header, s: seq<byte>, cuts: set<int>, n: nat, b: nat)
    requires InTime(h, s, cuts, n) && Offered(h.lineParser, s, cuts, n, b) && Orderly(s, cuts, n, BlockEnd(s[..b]))
    ensures !Hazard(h.lineParser, s[n..b])
  {
    hide *;
    OfferedBounds(h.lineParser, s, cuts, n, b);
    InTimeTracks(h, s, cuts, n);
    CallTracked(h.lineParser, s, cuts, n, b);
    if n < b {
      InTimeAtEnd(h, s, cuts, n);
      assert s[..n] + s[n..b] == s[..b];
      EndsBeyond(s[..n], s[n..b]);
      OrderlySplits(s, cuts, n, n, BlockEnd(s[..b]));
    }
  }

  lemma ExpectedAnswer(buf: seq<byte>, data: seq<byte>)
    requires CrlfFree(buf)
    ensures var f := FirstCrlf(buf + data);
            var a := Expected(buf, data);
            if f == -1 then a.NoLine? else a.Line? && a.line == (buf + data)[..f] && a.count == f + 2 - |buf|
  {
    hide FirstCrlf;
  }

  /** What a call that is no hazard answers: the line from where it began to the first CR LF. */
  lemma CallAnswers(h: Header, s: seq<byte>, cuts: set<int>, n: nat, b: nat)
    requires InTime(h, s, cuts, n) && n <= b <= |s| && !Hazard(h.lineParser, s[n..b])
    ensures var m := Begun(h, n);
            var f := FirstCrlf(s[m..b]);
            var a := ParseLine(h.lineParser, s[n..b]).answer;
            0 <= m <= n && if f == -1 then a.NoLine? else a.Line? && a.line == s[m..b][..f] && a.count == m + f + 2 - n
  {
    assert Begun(h, n) == n - |h.lineParser.buf|;
    hide *;
    InTimeTracks(h, s, cuts, n);
    TracksReachable(h.lineParser, s, cuts, n);
    CallAgreesIff(h.lineParser, s[n..b]);
    Pending(h.lineParser, s, n, b);
    ReachableIsFree(h.lineParser);
    ExpectedAnswer(h.lineParser.buf, s[n..b]);
  }

  lemma MakeInTime(h: Header, s: seq<byte>, cuts: set<int>, n: nat)
    requires Tracks(h.lineParser, s, cuts, n) && h.lineParser.buf == [] && n <= |s|
    requires BlockOf(s[..n]).Incomplete? && h.linesCnt == |Split(s[..n]).lines|
    ensures InTime(h, s, cuts, n)
  {
    hide Tracks, BlockOf, Split;
  }

  /** One turn of the loop that returns a line, which is not empty. */
  lemma CountedLine(h: Header, s: seq<byte>, cuts: set<int>, n: nat, b: nat)
    requires InTime(h, s, cuts, n) && Offered(h.lineParser, s, cuts, n, b)
    requires var c := ParseLine(h.lineParser, s[n..b]); c.answer.Line? && c.answer.line != []
    ensures var c := ParseLine(h.lineParser, s[n..b]);
            var k := c.answer.count;
            var next := Header(h.data + s[n..b][..k], h.linesCnt + 1, c.next);
            && 1 <= k <= b - n && s[n..b][k..] == s[n + k..b]
            && InTime(next, s, cuts, n + k) && Offered(next.lineParser, s, cuts, n + k, b)
            && Assemble(h, s[n..b]) == Assemble(next, s[n + k..b])
  {
    hide *;
    OfferedBounds(h.lineParser, s, cuts, n, b);
    var data := s[n..b];
    var c := ParseLine(h.lineParser, data);
    var m := Begun(h, n);
    LineIsSafe(h.lineParser, data);
    InTimeTracks(h, s, cuts, n);
    BegunAtLineEnd(h, s, cuts, n);
    CallAnswers(h, s, cuts, n, b);
    LineTracked(h.lineParser, s, cuts, n, b);
    var k := c.answer.count;
    StillOffered(h.lineParser, s, cuts, n, b, c.next, k);
    AssembleStep(h, data);
    FirstWithin(s[m..b], n + k - m);
    assert s[m..b][..n + k - m] == s[m..n + k];
    NextLine(s, m, n + k);
    MakeInTime(Header(h.data + data[..k], h.linesCnt + 1, c.next), s, cuts, n + k);
  }

  /** What a call answers as long as the assembler is in time. */
  ghost predicate AnswersInTime(p: Parsed, end: nat, s: seq<byte>, cuts: set<int>, b: nat)
    requires b <= |s|
  {
    match BlockOf(s[..b])
    case Complete(e, k) => p.result.Handed? && p.result.capacity == Capacity(k) && end == e
    case Incomplete => p.result.NeedsMore? && InTime(p.next, s, cuts, b)
  }

  lemma LaterOrderly(s: seq<byte>, cuts: set<int>, n: nat, k: nat, e: nat)
    requires n <= k && Orderly(s, cuts, n, e)
    ensures Orderly(s, cuts, k, e)
  {
    hide Dangerous;
  }

  lemma HandedInTime(p: Parsed, end: nat, s: seq<byte>, cuts: set<int>, b: nat, k: nat)
    requires b <= |s| && BlockOf(s[..b]) == Complete(end, k)
    requires p.result.Handed? && p.result.capacity == Capacity(k)
    ensures AnswersInTime(p, end, s, cuts, b)
  {
    hide BlockOf, InTime;
  }

  lemma EmptyLineInTime(h: Header, s: seq<byte>, cuts: set<int>, n: nat, b: nat)
    requires InTime(h, s, cuts, n) && n <= b <= |s| && !Hazard(h.lineParser, s[n..b])
    requires var c := ParseLine(h.lineParser, s[n..b]); c.answer.Line? && c.answer.line == []
    ensures AnswersInTime(Assemble(h, s[n..b]), n + Taken(h, s[n..b]), s, cuts, b)
  {
    hide *;
    InTimeTracks(h, s, cuts, n);
    CallAnswers(h, s, cuts, n, b);
    BlockAhead(h, s, cuts, n, b);
    BlockStep(s[Begun(h, n)..b]);
    AssembleStep(h, s[n..b]);
    TakenStep(h, s[n..b]);
    assert Begun(h, n) + 2 == n + Taken(h, s[n..b]);
    HandedInTime(Assemble(h, s[n..b]), n + Taken(h, s[n..b]), s, cuts, b, h.linesCnt);
  }

  lemma StillInTime(h: Header, s: seq<byte>, cuts: set<int>, n: nat, b: nat)
    requires InTime(h, s, cuts, n) && n <= b <= |s| && BlockOf(s[..b]).Incomplete?
    requires var c := ParseLine(h.lineParser, s[n..b]);
             c.answer.NoLine? && Tracks(c.next, s, cuts, b)
                 && Assemble(h, s[n..b]) == Parsed(NeedsMore, h.(lineParser := c.next))
    ensures AnswersInTime(Assemble(h, s[n..b]), n + Taken(h, s[n..b]), s, cuts, b)
  {
    hide Tracks, BlockOf, Split, Assemble;
  }

  lemma NoLineInTime(h: Header, s: seq<byte>, cuts: set<int>, n: nat, b: nat)
    requires InTime(h, s, cuts, n) && Offered(h.lineParser, s, cuts, n, b) && n <= b <= |s|
    requires !Hazard(h.lineParser, s[n..b]) && !ParseLine(h.lineParser, s[n..b]).answer.Line?
    ensures AnswersInTime(Assemble(h, s[n..b]), n + Taken(h, s[n..b]), s, cuts, b)
  {
    hide *;
    InTimeTracks(h, s, cuts, n);
    CallAnswers(h, s, cuts, n, b);
    BlockAhead(h, s, cuts, n, b);
    BlockStep(s[Begun(h, n)..b]);
    AssembleStep(h, s[n..b]);
    RestTracked(h.lineParser, s, cuts, n, b);
    StillInTime(h, s, cuts, n, b);
  }

  lemma {:induction false} AssembleInTime(h: Header, s: seq<byte>, cuts: set<int>, n: nat, b: nat)
    requires InTime(h, s, cuts, n) && Offered(h.lineParser, s, cuts, n, b) && b <= |s|
    requires Orderly(s, cuts, n, BlockEnd(s[..b]))
    ensures AnswersInTime(Assemble(h, s[n..b]), n + Taken(h, s[n..b]), s, cuts, b)
    decreases b - n
  {
    hide *;
    OfferedBounds(h.lineParser, s, cuts, n, b);
    NoHazard(h, s, cuts, n, b);
    var c := ParseLine(h.lineParser, s[n..b]);
    if c.answer.Line? && c.answer.line != [] {
      CountedLine(h, s, cuts, n, b);
      TakenStep(h, s[n..b]);
      LaterOrderly(s, cuts, n, n + c.answer.count, BlockEnd(s[..b]));
      var next := Header(h.data + s[n..b][..c.answer.count], h.linesCnt + 1, c.next);
      AssembleInTime(next, s, cuts, n + c.answer.count, b);
    } else if c.answer.Line? {
      EmptyLineInTime(h, s, cuts, n, b);
    } else {
      NoLineInTime(h, s, cuts, n, b);
    }
  }

  lemma BlockEndGrows(s: seq<byte>, b: nat)
    requires b <= |s|
    ensures BlockEnd(s[..b]) <= BlockEnd(s)
  {
    assert s[..b] + s[b..] == s;
    if BlockOf(s[..b]).Complete? {
      BlockGrows(s[..b], s[b..]);
    } else if s[b..] != [] {
      EndsBeyond(s[..b], s[b..]);
    } else {
      assert s[..b] == s;
    }
    hide BlockOf;
  }

  lemma FreshInTime(chunks: seq<seq<byte>>)
    ensures var s := Flatten(chunks); InTime(EMPTY, s, Cuts(chunks), 0) && Ahead(s, Cuts(chunks), 0, chunks)
  {
    AllAhead(chunks);
    NoLinesInNothing();
    hide Tracks, Ahead, BlockOf, Split, Cuts, Flatten;
    assert Flatten(chunks)[..0] == [];
  }

  /** The next chunk, with the facts about it that runs need. */
  lemma ChunkInTime(h: Header, s: seq<byte>, cuts: set<int>, n: nat, chunks: seq<seq<byte>>)
    requires InTime(h, s, cuts, n) && Ahead(s, cuts, n, chunks) && chunks != []
    ensures var b := n + |chunks[0]|;
            && n <= b <= |s| && Offered(h.lineParser, s, cuts, n, b) && Ahead(s, cuts, b, chunks[1..])
            && s[n..b] == chunks[0] && s[..n] + chunks[0] == s[..b]
  {
    hide *;
    NextChunk(h.lineParser, s, cuts, n, chunks);
    OfferedBounds(h.lineParser, s, cuts, n, n + |chunks[0]|);
    assert s[..n] + s[n..n + |chunks[0]|] == s[..n + |chunks[0]|];
  }

  lemma OrderlyWithin(s: seq<byte>, cuts: set<int>, n: nat, e: nat, f: nat)
    requires e <= f && Orderly(s, cuts, n, f)
    ensures Orderly(s, cuts, n, e)
  {
    hide Dangerous;
  }

  lemma InTimeAnswer(p: Parsed, end: nat, s: seq<byte>, cuts: set<int>, b: nat)
    requires b <= |s| && AnswersInTime(p, end, s, cuts, b)
    ensures match BlockOf(s[..b])
            case Complete(e, k) => p.result.Handed? && p.result.capacity == Capacity(k) && end == e
            case Incomplete => p.result.NeedsMore? && InTime(p.next, s, cuts, b)
  {
    hide InTime, BlockOf;
  }

  /** One call of the run and of the reference, as far as the timing goes. */
  lemma HttpStep(h: Header, before: seq<byte>, chunks: seq<seq<byte>>)
    ensures chunks == [] ==> Timing(RunHttp(h, chunks)) == Timing(ExpectedRun(before, chunks))
    ensures chunks != [] ==>
              var p := Assemble(h, chunks[0]);
              var now := before + chunks[0];
              && (p.result.Handed? && BlockOf(now).Complete? && p.result.capacity == Capacity(BlockOf(now).lines) ==>
                    Timing(RunHttp(h, chunks)) == Timing(ExpectedRun(before, chunks)))
              && (p.result.NeedsMore? && BlockOf(now).Incomplete?
                  && Timing(RunHttp(p.next, chunks[1..])) == Timing(ExpectedRun(now, chunks[1..])) ==>
                    Timing(RunHttp(h, chunks)) == Timing(ExpectedRun(before, chunks)))
  {
    hide Assemble, BlockOf;
  }

  lemma {:induction false} TimingFrom(h: Header, s: seq<byte>, cuts: set<int>, n: nat, chunks: seq<seq<byte>>)
    requires InTime(h, s, cuts, n) && Ahead(s, cuts, n, chunks) && n <= |s|
    requires Orderly(s, cuts, n, BlockEnd(s))
    ensures Timing(RunHttp(h, chunks)) == Timing(ExpectedRun(s[..n], chunks))
    decreases |chunks|
  {
    hide *;
    HttpStep(h, s[..n], chunks);
    if chunks != [] {
      var b := n + |chunks[0]|;
      ChunkInTime(h, s, cuts, n, chunks);
      BlockEndGrows(s, b);
      OrderlyWithin(s, cuts, n, BlockEnd(s[..b]), BlockEnd(s));
      AssembleInTime(h, s, cuts, n, b);
      InTimeAnswer(Assemble(h, chunks[0]), n + Taken(h, chunks[0]), s, cuts, b);
      if BlockOf(s[..b]).Incomplete? {
        LaterOrderly(s, cuts, n, b, BlockEnd(s));
        TimingFrom(Assemble(h, chunks[0]).next, s, cuts, b, chunks[1..]);
      }
    }
  }

  lemma AccidentRuns(c1: seq<byte>, c2: seq<byte>, c3: seq<byte>)
    requires BlockOf(c1).Incomplete? && BlockOf(c1 + c2).Incomplete? && BlockOf(c1 + c2 + c3) == Complete(5, 1)
    requires |c1 + c2 + c3| >= 5
    requires Assemble(EMPTY, c1) == Parsed(NeedsMore, Header([], 0, State(c1, true)))
    requires Assemble(Header([], 0, State(c1, true)), c2) == Parsed(NeedsMore, Header([], 0, State(c1 + c2, false)))
    requires Assemble(Header([], 0, State(c1 + c2, false)), c3).result == Handed(c3, 0)
    ensures RunHttp(EMPTY, [c1, c2, c3]) == RunHanded(2, c3, 0)
    ensures ExpectedRun([], [c1, c2, c3]) == RunHanded(2, (c1 + c2 + c3)[..5], 0)
  {
    hide Assemble, BlockOf;
    assert [c1, c2, c3][1..] == [c2, c3] && [c2, c3][1..] == [c3] && [c3][1..] == [];
    assert [] + c1 == c1;
    assert RunHttp(Header([], 0, State(c1 + c2, false)), [c3]) == RunHanded(0, c3, 0);
    assert RunHttp(Header([], 0, State(c1, true)), [c2, c3]) == RunHanded(1, c3, 0);
    assert ExpectedRun(c1 + c2, [c3]) == RunHanded(0, (c1 + c2 + c3)[..5], 0);
    assert ExpectedRun(c1, [c2, c3]) == RunHanded(1, (c1 + c2 + c3)[..5], 0);
  }

  lemma AccidentCuts(c1: seq<byte>, c2: seq<byte>, c3: seq<byte>)
    requires |c1| == 2 && |c2| == 1 && c1[1] == CR && c2[0] == LF
    ensures var chunks := [c1, c2, c3];
            Flatten(chunks) == c1 + c2 + c3 && Dangerous(Flatten(chunks), Cuts(chunks), 2)
  {
    var chunks := [c1, c2, c3];
    assert chunks[1..] == [c2, c3] && [c2, c3][1..] == [c3];
    assert Cuts(chunks) == {0} + CutsFrom(2, [c2, c3]);
    assert CutsFrom(2, [c2, c3]) == {2} + CutsFrom(3, [c3]);
    assert 3 in CutsFrom(3, [c3]);
    assert Flatten(chunks) == c1 + Flatten([c2, c3]) && Flatten([c2, c3]) == c2 + Flatten([c3]);
    assert Flatten([c3]) == c3 + Flatten([]) && c1 + (c2 + c3) == c1 + c2 + c3;
  }

  lemma AccidentBlocks(c1: seq<byte>, c2: seq<byte>, c3: seq<byte>)
    requires c1 == [97, CR] && c2 == [LF] && c3 == [CR, LF, CR, LF]
    ensures BlockOf(c1).Incomplete? && BlockOf(c1 + c2).Incomplete? && BlockOf(c1 + c2 + c3) == Complete(5, 1)
    ensures BlockEnd(c1 + c2 + c3) == 5
  {
    FirstIs(c1 + c2, 1);
    FirstIs(c1 + c2 + c3, 1);
    FirstIs(c3, 0);
    assert (c1 + c2)[3..] == [] && (c1 + c2 + c3)[3..] == c3;
    hide FirstCrlf, BlockOf;
    BlockStep(c1 + c2);
    BlockStep(c1 + c2 + c3);
    BlockStep(c3);
    NoLinesInNothing();
    if BlockOf(c1).Complete? {
      BlockGrows(c1, c2);
    }
  }

  lemma AccidentCalls(c1: seq<byte>, c2: seq<byte>, c3: seq<byte>)
    requires c1 == [97, CR] && c2 == [LF] && c3 == [CR, LF, CR, LF]
    ensures Assemble(EMPTY, c1) == Parsed(NeedsMore, Header([], 0, State(c1, true)))
    ensures Assemble(Header([], 0, State(c1, true)), c2) == Parsed(NeedsMore, Header([], 0, State(c1 + c2, false)))
    ensures Assemble(Header([], 0, State(c1 + c2, false)), c3).result == Handed(c3, 0)
  {
    hide Assemble;
    AssembleStep(EMPTY, c1);
    AssembleStep(Header([], 0, State(c1, true)), c2);
    AssembleStep(Header([], 0, State(c1 + c2, false)), c3);
    assert [] + c1 == c1;
    FirstIs(c3, 0);
    assert c3[2..] == CRLF && [] + c3[..2] == c3[..2] && c1 + c2 + c3[..0] == c1 + c2;
    EmptyLineCall(Header(c3[..2], 1, State([], false)));
    assert c3[..2] + CRLF == c3;
  }

  /** Right timing does not imply that nothing was missed: of "a" CR, LF, CR LF CR LF the first CR LF
      is missed, yet the call that completes the block hands over, with the right capacity - at a later empty line
      of the same chunk. */
  lemma RightByAccident()
    ensures var chunks := [[97, CR], [LF], [CR, LF, CR, LF]];
            && Dangerous(Flatten(chunks), Cuts(chunks), 2) && BlockEnd(Flatten(chunks)) == 5
            && RunHttp(EMPTY, chunks) == RunHanded(2, [CR, LF, CR, LF], 0)
            && ExpectedRun([], chunks) == RunHanded(2, [97, CR, LF, CR, LF], 0)
  {
    hide *;
    var c1: seq<byte>, c2: seq<byte>, c3: seq<byte> := [97, CR], [LF], [CR, LF, CR, LF];
    AccidentCuts(c1, c2, c3);
    AccidentBlocks(c1, c2, c3);
    AccidentCalls(c1, c2, c3);
    AccidentRuns(c1, c2, c3);
    assert (c1 + c2 + c3)[..5] == [97, CR, LF, CR, LF];
  }

  // -- Never too early -------------------------------------------------------------------------

  lemma EmptyLineAt(s: seq<byte>, b: nat, e: nat)
    requires 2 <= e <= b <= |s| && CrlfAt(s, e - 2) && LineStart(s, e - 2)
    ensures BlockOf(s[..b]).Complete?
  {
    assert CrlfAt(s[..b], e - 2) && (e == 2 || CrlfAt(s[..b], e - 4));
    EmptyLineCompletes(s[..b], e - 2);
    hide BlockOf;
  }

  /** No call hands over before the stream holds an empty line. */
  lemma {:induction false} NotEarly(h: Header, s: seq<byte>, n: nat, b: nat)
    requires Aligned(h.lineParser, s, n) && n <= b <= |s|
    ensures var p := Assemble(h, s[n..b]);
            && (p.result.Handed? ==> BlockOf(s[..b]).Complete?)
            && (p.result.NeedsMore? ==> Aligned(p.next.lineParser, s, b))
    decreases b - n
  {
    hide *;
    AssembleStep(h, s[n..b]);
    AlignedCall(h.lineParser, s, n, b);
    var c := ParseLine(h.lineParser, s[n..b]);
    if c.answer.Line? {
      var e := n + c.answer.count;
      if c.answer.line == [] {
        EmptyLineAt(s, b, e);
      } else {
        NotEarly(Header(h.data + s[n..b][..c.answer.count], h.linesCnt + 1, c.next), s, e, b);
      }
    }
  }

  lemma FreshAligned(s: seq<byte>)
    ensures Aligned(EMPTY.lineParser, s, 0)
  {
    assert s[0..0] == [];
  }

  /** The next chunk of a stream, and what the reference makes of it. */
  lemma ChunkAhead(s: seq<byte>, n: nat, chunks: seq<seq<byte>>)
    requires n <= |s| && s[n..] == Flatten(chunks) && chunks != []
    ensures var b := n + |chunks[0]|;
            n <= b <= |s| && s[n..b] == chunks[0] && s[..n] + chunks[0] == s[..b] && s[b..] == Flatten(chunks[1..])
  {
    assert s[n..][..|chunks[0]|] == chunks[0] && s[n..][|chunks[0]|..] == Flatten(chunks[1..]);
  }

  predicate IsLater(a: Run, b: Run) {
    (a.RunHanded? <==> b.RunHanded?) && (a.RunHanded? ==> b.index == a.index + 1)
  }

  lemma EarlyStep(h: Header, before: seq<byte>, chunks: seq<seq<byte>>)
    ensures chunks == [] ==> RunHttp(h, chunks) == RunOpen
    ensures chunks != [] ==>
            var p := Assemble(h, chunks[0]);
            var now := before + chunks[0];
            var r := RunHttp(h, chunks);
            var e := ExpectedRun(before, chunks);
            && (BlockOf(now).Complete? ==> e.RunHanded? && e.index == 0)
            && (BlockOf(now).Incomplete? ==> IsLater(ExpectedRun(now, chunks[1..]), e))
            && (p.result.Handed? ==> r.RunHanded? && r.index == 0)
            && (p.result.NeedsMore? ==> IsLater(RunHttp(p.next, chunks[1..]), r))
            && (p.result.Crash? ==> r.RunCrashed?)
  {
    hide Assemble, BlockOf;
  }

  lemma {:induction false} NeverEarlyFrom(h: Header, s: seq<byte>, n: nat, chunks: seq<seq<byte>>)
    requires Aligned(h.lineParser, s, n) && n <= |s| && s[n..] == Flatten(chunks)
    ensures var r := RunHttp(h, chunks);
            var e := ExpectedRun(s[..n], chunks);
            r.RunHanded? ==> e.RunHanded? && e.index <= r.index
    decreases |chunks|
  {
    hide Aligned, Assemble, BlockOf, RunHttp, ExpectedRun, Flatten;
    EarlyStep(h, s[..n], chunks);
    if chunks != [] {
      var b := n + |chunks[0]|;
      ChunkAhead(s, n, chunks);
      NotEarly(h, s, n, b);
      if BlockOf(s[..b]).Incomplete? && Assemble(h, chunks[0]).result.NeedsMore? {
        NeverEarlyFrom(Assemble(h, chunks[0]).next, s, b, chunks[1..]);
      }
    }
  }

  lemma {:induction false} HandedWithin(h: Header, chunks: seq<seq<byte>>)
    ensures RunHttp(h, chunks).RunHanded? ==> RunHttp(h, chunks).index < |chunks|
    decreases |chunks|
  {
    if chunks != [] {
      HandedWithin(Assemble(h, chunks[0]).next, chunks[1..]);
    }
    hide Assemble;
  }

  /** Whatever the chunks, dangerous bytes or none: a call that hands over has been offered the empty line that
      ends the header block, if not in this call then before. */
  lemma NeverEarly(chunks: seq<seq<byte>>)
    ensures var r := RunHttp(EMPTY, chunks);
            r.RunHanded? ==> r.index < |chunks| && BlockOf(Flatten(chunks[..r.index + 1])).Complete?
  {
    hide *;
    var s := Flatten(chunks);
    var r := RunHttp(EMPTY, chunks);
    FreshAligned(s);
    assert s[..0] == [];
    NeverEarlyFrom(EMPTY, s, 0, chunks);
    HandedWithin(EMPTY, chunks);
    if r.RunHanded? {
      var e := ExpectedRun([], chunks).index;
      NoLinesInNothing();
      ExpectedIsBlock([], chunks);
      assert [] + Flatten(chunks) == s;
      assert [] + Flatten(chunks[..e + 1]) == Flatten(chunks[..e + 1]);
      assert chunks[..r.index + 1] == chunks[..e + 1] + chunks[e + 1..r.index + 1];
      FlattenConcat(chunks[..e + 1], chunks[e + 1..r.index + 1]);
      BlockGrows(Flatten(chunks[..e + 1]), Flatten(chunks[e + 1..r.index + 1]));
    }
  }

  // -- A miscount stays ------------------------------------------------------------------------

  /** A line of the stream has not been counted; if none has been, all bytes are still in `buf`. */
  ghost predicate Lagging(h: Header, s: seq<byte>, n: nat) {
    && Aligned(h.lineParser, s, n) && n <= |s|
    && h.linesCnt < |Split(s[..n]).lines| && (h.linesCnt == 0 ==> |h.lineParser.buf| == n)
  }

  lemma MoreLines(s: seq<byte>, n: nat, b: nat)
    requires n <= b <= |s|
    ensures |Split(s[..n]).lines| <= |Split(s[..b]).lines|
    ensures n < b && AtLineEnd(s[..b]) ==> |Split(s[..n]).lines| < |Split(s[..b]).lines|
  {
    hide AtLineEnd, Split;
    assert s[..n] + s[n..b] == s[..b];
    SplitConcat(s[..n], s[n..b]);
    var r := Split(s[..n]).rest;
    LineEndIff(s[..b]);
    JoinSplit(r + s[n..b]);
    if Split(r + s[n..b]).lines == [] {
      assert Join([], Split(r + s[n..b]).rest) == r + s[n..b];
    }
    hide *;
  }

  lemma LaggingParts(h: Header, s: seq<byte>, n: nat)
    requires Lagging(h, s, n)
    ensures Aligned(h.lineParser, s, n) && n <= |s|
    ensures h.linesCnt < |Split(s[..n]).lines| && (h.linesCnt == 0 ==> |h.lineParser.buf| == n)
  {
    hide Aligned, Split;
  }

  lemma MakeLagging(h: Header, s: seq<byte>, n: nat)
    requires Aligned(h.lineParser, s, n) && n <= |s|
    requires h.linesCnt < |Split(s[..n]).lines| && (h.linesCnt == 0 ==> |h.lineParser.buf| == n)
    ensures Lagging(h, s, n)
  {
    hide Aligned, Split;
  }

  /** As long as no line has been counted, none that comes is empty. */
  lemma NoneEmpty(h: Header, s: seq<byte>, n: nat, data: seq<byte>)
    requires Lagging(h, s, n)
    ensures h.linesCnt == 0 ==> var a := ParseLine(h.lineParser, data).answer; a.Line? ==> a.line != []
  {
    if n < 2 {
      SplitStep(s[..n]);
    }
    hide Split, Aligned;
  }

  lemma EndsLine(s: seq<byte>, e: nat)
    requires 2 <= e <= |s| && CrlfAt(s, e - 2)
    ensures AtLineEnd(s[..e])
  {
    assert CrlfAt(s[..e], e - 2);
  }

  lemma CapacityOf(k: nat)
    ensures k > 0 ==> Capacity(k) == k - 1
  {
  }

  lemma BuffersAll(p: State, data: seq<byte>)
    requires ParseLine(p, data).answer.NoLine?
    ensures ParseLine(p, data).next.buf == p.buf + data
  {
  }

  /** Once a line is missing it stays so; and a call that hands over counts one line too few. */
  lemma {:induction false} StaysLagging(h: Header, s: seq<byte>, n: nat, b: nat)
    requires Lagging(h, s, n) && n <= b <= |s|
    ensures var p := Assemble(h, s[n..b]);
            var end := n + Taken(h, s[n..b]);
            && (p.result.NeedsMore? ==> Lagging(p.next, s, b))
            && (p.result.Handed? ==> n < end <= b && p.result.capacity + 2 < |Split(s[..end]).lines|)
    decreases b - n
  {
    hide *;
    LaggingParts(h, s, n);
    AssembleStep(h, s[n..b]);
    TakenStep(h, s[n..b]);
    AlignedCall(h.lineParser, s, n, b);
    MoreLines(s, n, b);
    var c := ParseLine(h.lineParser, s[n..b]);
    if c.answer.Line? {
      var e := n + c.answer.count;
      EndsLine(s, e);
      MoreLines(s, n, e);
      if c.answer.line == [] {
        NoneEmpty(h, s, n, s[n..b]);
        CapacityOf(h.linesCnt);
      } else {
        var next := Header(h.data + s[n..b][..c.answer.count], h.linesCnt + 1, c.next);
        MakeLagging(next, s, e);
        StaysLagging(next, s, e, b);
      }
    } else if c.answer.NoLine? {
      BuffersAll(h.lineParser, s[n..b]);
      MakeLagging(h.(lineParser := c.next), s, b);
    }
  }

  /** A hazard that does not panic: the chunk is an LF, and ends a line. */
  lemma MissedAt(p: State, s: seq<byte>, cuts: set<int>, n: nat, b: nat)
    requires Tracks(p, s, cuts, n) && n <= b <= |s| && Hazard(p, s[n..b]) && ParseLine(p, s[n..b]).answer.NoLine?
    ensures n < b && AtLineEnd(s[..b])
  {
    LastByte(p, s, cuts, n);
    hide Stale, FirstCrlf;
    EndsLine(s, b);
  }

  lemma NoneCounted(h: Header, s: seq<byte>, cuts: set<int>, n: nat)
    requires InTime(h, s, cuts, n) && h.linesCnt == 0
    ensures |h.lineParser.buf| == n
  {
    hide Tracks, Split, BlockOf;
    BegunAtLineEnd(h, s, cuts, n);
    var front := s[..Begun(h, n)];
    LineEndIff(front);
    JoinSplit(front);
    assert Join([], []) == [];
  }

  lemma BlockEndBound(s: seq<byte>)
    ensures BlockEnd(s) <= |s|
  {
  }

  lemma LaterDisorder(s: seq<byte>, cuts: set<int>, n: nat, k: nat, e: nat)
    requires Orderly(s, cuts, n, k) && !Orderly(s, cuts, n, e)
    ensures !Orderly(s, cuts, k, e)
  {
    hide Dangerous;
  }

  lemma HandedAtEnd(p: Parsed, end: nat, s: seq<byte>, cuts: set<int>, b: nat)
    requires b <= |s| && AnswersInTime(p, end, s, cuts, b) && p.result.Handed?
    ensures end == BlockEnd(s[..b])
  {
    hide BlockOf, InTime;
  }

  /** A dangerous byte of the block leaves a line uncounted, unless the call crashes. */
  lemma {:induction false} FallsShort(h: Header, s: seq<byte>, cuts: set<int>, n: nat, b: nat)
    requires InTime(h, s, cuts, n) && Offered(h.lineParser, s, cuts, n, b) && b <= |s|
    requires !Orderly(s, cuts, n, BlockEnd(s[..b]))
    ensures var p := Assemble(h, s[n..b]); !p.result.Handed? && (p.result.NeedsMore? ==> Lagging(p.next, s, b))
    decreases b - n
  {
    hide *;
    OfferedBounds(h.lineParser, s, cuts, n, b);
    InTimeTracks(h, s, cuts, n);
    CallTracked(h.lineParser, s, cuts, n, b);
    AssembleStep(h, s[n..b]);
    BlockEndBound(s[..b]);
    var c := ParseLine(h.lineParser, s[n..b]);
    if c.answer.Line? && c.answer.line != [] {
      LaterDisorder(s, cuts, n, n + c.answer.count, BlockEnd(s[..b]));
      CountedLine(h, s, cuts, n, b);
      FallsShort(Header(h.data + s[n..b][..c.answer.count], h.linesCnt + 1, c.next), s, cuts, n + c.answer.count, b);
    } else if c.answer.Line? {
      EmptyLineInTime(h, s, cuts, n, b);
      TakenStep(h, s[n..b]);
      HandedAtEnd(Assemble(h, s[n..b]), n + Taken(h, s[n..b]), s, cuts, b);
    } else if c.answer.NoLine? {
      TracksReachable(h.lineParser, s, cuts, n);
      AlignedCall(h.lineParser, s, n, b);
      InTimeAtEnd(h, s, cuts, n);
      if !Hazard(h.lineParser, s[n..b]) {
        OrderlyWithin(s, cuts, n, BlockEnd(s[..b]), b);
      }
      MissedAt(h.lineParser, s, cuts, n, b);
      MoreLines(s, n, b);
      BuffersAll(h.lineParser, s[n..b]);
      if h.linesCnt == 0 {
        NoneCounted(h, s, cuts, n);
      }
      MakeLagging(h.(lineParser := c.next), s, b);
    }
  }

  // -- Every line is counted -------------------------------------------------------------------

  lemma AheadFlat(s: seq<byte>, cuts: set<int>, n: nat, chunks: seq<seq<byte>>)
    requires Ahead(s, cuts, n, chunks)
    ensures n <= |s| && s[n..] == Flatten(chunks)
  {
  }

  lemma IncompleteFront(s: seq<byte>, b: nat)
    requires b <= |s| && BlockOf(s).Incomplete?
    ensures BlockOf(s[..b]).Incomplete? && BlockEnd(s[..b]) == b
  {
    assert s[..b] + s[b..] == s;
    if BlockOf(s[..b]).Complete? {
      BlockGrows(s[..b], s[b..]);
    }
    hide BlockOf;
  }

  lemma NothingDangerous(s: seq<byte>, cuts: set<int>)
    ensures Orderly(s, cuts, |s|, |s|)
  {
  }

  lemma NothingFlat()
    ensures Flatten([]) == []
  {
  }

  lemma FeedStep(h: Header, chunks: seq<seq<byte>>)
    ensures chunks == [] ==> Feed(h, chunks) == Parsed(NeedsMore, h)
    ensures chunks != [] ==>
              var p := Assemble(h, chunks[0]);
              Feed(h, chunks) == if p.result.NeedsMore? then Feed(p.next, chunks[1..]) else p
  {
    hide Assemble;
  }

  lemma {:induction false} FeedLags(h: Header, s: seq<byte>, n: nat, chunks: seq<seq<byte>>)
    requires Lagging(h, s, n) && n <= |s| && s[n..] == Flatten(chunks)
    ensures var p := Feed(h, chunks); p.result.NeedsMore? ==> p.next.linesCnt < |Split(s).lines|
    decreases |chunks|
  {
    hide *;
    FeedStep(h, chunks);
    if chunks != [] {
      ChunkAhead(s, n, chunks);
      StaysLagging(h, s, n, n + |chunks[0]|);
      if Assemble(h, chunks[0]).result.NeedsMore? {
        FeedLags(Assemble(h, chunks[0]).next, s, n + |chunks[0]|, chunks[1..]);
      }
    } else {
      LaggingParts(h, s, n);
      NothingFlat();
      assert s[..n] == s;
    }
  }

  lemma {:induction false} FeedFrom(h: Header, s: seq<byte>, cuts: set<int>, n: nat, chunks: seq<seq<byte>>)
    requires InTime(h, s, cuts, n) && Ahead(s, cuts, n, chunks) && n <= |s| && BlockOf(s).Incomplete?
    ensures var p := Feed(h, chunks);
            p.result.NeedsMore? && p.next.linesCnt == |Split(s).lines| <==> Orderly(s, cuts, n, |s|)
    decreases |chunks|
  {
    hide *;
    FeedStep(h, chunks);
    if chunks == [] {
      NothingAhead(s, cuts, n);
      InTimeAtEnd(h, s, cuts, n);
      assert s[..n] == s;
      NothingDangerous(s, cuts);
    } else {
      var b := n + |chunks[0]|;
      var p := Assemble(h, chunks[0]);
      ChunkInTime(h, s, cuts, n, chunks);
      IncompleteFront(s, b);
      OrderlySplits(s, cuts, n, b, |s|);
      if Orderly(s, cuts, n, b) {
        AssembleInTime(h, s, cuts, n, b);
        InTimeAnswer(p, n + Taken(h, chunks[0]), s, cuts, b);
        FeedFrom(p.next, s, cuts, b, chunks[1..]);
      } else {
        FallsShort(h, s, cuts, n, b);
        if p.result.NeedsMore? {
          AheadFlat(s, cuts, b, chunks[1..]);
          FeedLags(p.next, s, b, chunks[1..]);
        }
      }
    }
  }

  /** `lines_cnt`, for every chunking of every stream without an empty line: all calls ask for more and have
      counted exactly the lines completed, if and only if no byte of the stream is dangerous. */
  lemma LinesCountedIff(chunks: seq<seq<byte>>)
    requires BlockOf(Flatten(chunks)).Incomplete?
    ensures var s := Flatten(chunks);
            var p := Feed(EMPTY, chunks);
            p.result.NeedsMore? && p.next.linesCnt == |Split(s).lines| <==> Orderly(s, Cuts(chunks), 0, |s|)
  {
    hide *;
    FreshInTime(chunks);
    FeedFrom(EMPTY, Flatten(chunks), Cuts(chunks), 0, chunks);
  }

  // -- The block is handed over at its end -----------------------------------------------------

  /** A run hands over at the first empty line of the stream, with the right capacity. */
  predicate HandsOver(r: Run, end: nat, b: Block) {
    && b.Complete? && r.RunHanded? && end == b.length
    && r.capacity == if b.lines == 0 then 0 else b.lines - 1
  }

  lemma HandsOverStep(h: Header, n: nat, chunks: seq<seq<byte>>, b: Block)
    ensures chunks == [] ==> !HandsOver(RunHttp(h, chunks), HandedEnd(h, n, chunks), b)
    ensures chunks != [] ==>
              var p := Assemble(h, chunks[0]);
              var now := HandsOver(RunHttp(h, chunks), HandedEnd(h, n, chunks), b);
              && (p.result.Crash? ==> !now)
              && (p.result.Handed? ==>
                    (now <==>
                     b.Complete? && n + Taken(h, chunks[0]) == b.length && p.result.capacity == Capacity(b.lines)))
              && (p.result.NeedsMore? ==>
                    var end := HandedEnd(p.next, n + |chunks[0]|, chunks[1..]);
                    (now <==> HandsOver(RunHttp(p.next, chunks[1..]), end, b)))
  {
    hide Assemble, Taken;
  }

  lemma LinesAtBlockEnd(s: seq<byte>)
    requires BlockOf(s).Complete?
    ensures |Split(s[..BlockOf(s).length]).lines| == BlockOf(s).lines + 1
  {
    BlockFits(s);
    BlockEnds(s[..BlockOf(s).length]);
    hide BlockOf, Split;
  }

  lemma {:induction false} LateRun(h: Header, s: seq<byte>, n: nat, chunks: seq<seq<byte>>)
    requires Lagging(h, s, n) && n <= |s| && s[n..] == Flatten(chunks) && BlockOf(s).Complete?
    ensures !HandsOver(RunHttp(h, chunks), HandedEnd(h, n, chunks), BlockOf(s))
    decreases |chunks|
  {
    hide *;
    HandsOverStep(h, n, chunks, BlockOf(s));
    if chunks != [] {
      var b := n + |chunks[0]|;
      ChunkAhead(s, n, chunks);
      StaysLagging(h, s, n, b);
      LinesAtBlockEnd(s);
      CapacityOf(BlockOf(s).lines);
      if Assemble(h, chunks[0]).result.NeedsMore? {
        LateRun(Assemble(h, chunks[0]).next, s, b, chunks[1..]);
      }
    }
  }

  lemma FrontOfBlock(s: seq<byte>, b: nat)
    requires b <= |s| && BlockOf(s).Complete?
    ensures BlockEnd(s[..b]) <= BlockEnd(s)
    ensures BlockOf(s[..b]).Complete? ==> BlockOf(s[..b]) == BlockOf(s)
    ensures BlockOf(s[..b]).Complete? ==> BlockEnd(s[..b]) == BlockEnd(s) == BlockOf(s).length
    ensures BlockOf(s[..b]).Incomplete? ==> BlockEnd(s[..b]) == b <= BlockEnd(s)
  {
    BlockEndGrows(s, b);
    assert s[..b] + s[b..] == s;
    if BlockOf(s[..b]).Complete? {
      BlockGrows(s[..b], s[b..]);
    }
    hide BlockOf;
  }

  lemma BrokenOrder(s: seq<byte>, cuts: set<int>, n: nat, e: nat, f: nat)
    requires e <= f && !Orderly(s, cuts, n, e)
    ensures !Orderly(s, cuts, n, f)
  {
    hide Dangerous;
  }

  lemma {:induction false} HandsOverFrom(h: Header, s: seq<byte>, cuts: set<int>, n: nat, chunks: seq<seq<byte>>)
    requires InTime(h, s, cuts, n) && Ahead(s, cuts, n, chunks) && n <= |s| && BlockOf(s).Complete?
    ensures HandsOver(RunHttp(h, chunks), HandedEnd(h, n, chunks), BlockOf(s)) <==> Orderly(s, cuts, n, BlockEnd(s))
    decreases |chunks|
  {
    hide *;
    HandsOverStep(h, n, chunks, BlockOf(s));
    if chunks == [] {
      NothingAhead(s, cuts, n);
      assert s[..n] == s;
      InTimeAtEnd(h, s, cuts, n);
    } else {
      var b := n + |chunks[0]|;
      var p := Assemble(h, chunks[0]);
      ChunkInTime(h, s, cuts, n, chunks);
      FrontOfBlock(s, b);
      if Orderly(s, cuts, n, BlockEnd(s[..b])) {
        AssembleInTime(h, s, cuts, n, b);
        InTimeAnswer(p, n + Taken(h, chunks[0]), s, cuts, b);
        if BlockOf(s[..b]).Incomplete? {
          OrderlySplits(s, cuts, n, b, BlockEnd(s));
          HandsOverFrom(p.next, s, cuts, b, chunks[1..]);
        }
      } else {
        BrokenOrder(s, cuts, n, BlockEnd(s[..b]), BlockEnd(s));
        FallsShort(h, s, cuts, n, b);
        if p.result.NeedsMore? {
          AheadFlat(s, cuts, b, chunks[1..]);
          LateRun(p.next, s, b, chunks[1..]);
        }
      }
    }
  }

  /** For every chunking of every stream that holds an empty line, wherever it is cut: the run hands over at the
      first empty line of the stream, with as many headers as there are lines in front of it but one, if and only if no
      byte up to there is dangerous. */
  lemma HandsOverIff(chunks: seq<seq<byte>>)
    requires BlockOf(Flatten(chunks)).Complete?
    ensures var s := Flatten(chunks);
            HandsOver(RunHttp(EMPTY, chunks), HandedEnd(EMPTY, 0, chunks), BlockOf(s))
            <==> Orderly(s, Cuts(chunks), 0, BlockOf(s).length)
  {
    hide *;
    var s := Flatten(chunks);
    FreshInTime(chunks);
    HandsOverFrom(EMPTY, s, Cuts(chunks), 0, chunks);
    assert s[..|s|] == s;
    FrontOfBlock(s, |s|);
  }

  // -- Before the block is complete ------------------------------------------------------------

  lemma FollowsAligned(p: State, s: seq<byte>, cuts: set<int>, n: nat)
    requires Follows(p, s, cuts, n)
    ensures Aligned(p, s, n)
  {
    hide Stale;
  }

  lemma {:induction false} AssembleFollows(h: Header, s: seq<byte>, cuts: set<int>, n: nat, b: nat)
    requires Follows(h.lineParser, s, cuts, n) && Offered(h.lineParser, s, cuts, n, b) && b <= |s|
    requires BlockOf(s[..b]).Incomplete?
    ensures var p := Assemble(h, s[n..b]);
            if Calm(s, cuts, n, b) then p.result.NeedsMore? && Follows(p.next.lineParser, s, cuts, b)
            else p.result.Crash?
    decreases b - n
  {
    hide *;
    OfferedBounds(h.lineParser, s, cuts, n, b);
    CallFollows(h.lineParser, s, cuts, n, b);
    CalmSplits(s, cuts, n, n, b);
    AssembleStep(h, s[n..b]);
    var c := ParseLine(h.lineParser, s[n..b]);
    if c.answer.Line? {
      var k := c.answer.count;
      FollowsAligned(h.lineParser, s, cuts, n);
      NotEarly(h, s, n, b);
      StillOffered(h.lineParser, s, cuts, n, b, c.next, k);
      CalmSplits(s, cuts, n, n + k, b);
      AssembleFollows(Header(h.data + s[n..b][..k], h.linesCnt + 1, c.next), s, cuts, n + k, b);
    }
  }

  lemma NothingCrashes(s: seq<byte>, cuts: set<int>)
    ensures Calm(s, cuts, |s|, |s|)
  {
  }

  lemma OpenStep(h: Header, chunks: seq<seq<byte>>)
    ensures chunks == [] ==> RunHttp(h, chunks).RunOpen?
    ensures chunks != [] ==>
              var p := Assemble(h, chunks[0]);
              var r := RunHttp(h, chunks);
              && (p.result.Crash? ==> r.RunCrashed?)
              && (p.result.NeedsMore? ==>
                    var later := RunHttp(p.next, chunks[1..]);
                    (r.RunOpen? <==> later.RunOpen?) && (r.RunCrashed? <==> later.RunCrashed?))
  {
    hide Assemble;
  }

  lemma {:induction false} OpenFrom(h: Header, s: seq<byte>, cuts: set<int>, n: nat, chunks: seq<seq<byte>>)
    requires Follows(h.lineParser, s, cuts, n) && Ahead(s, cuts, n, chunks) && BlockOf(s).Incomplete?
    ensures RunHttp(h, chunks).RunOpen? <==> Calm(s, cuts, n, |s|)
    ensures RunHttp(h, chunks).RunOpen? || RunHttp(h, chunks).RunCrashed?
    decreases |chunks|
  {
    hide *;
    OpenStep(h, chunks);
    if chunks == [] {
      NothingAhead(s, cuts, n);
      NothingCrashes(s, cuts);
    } else {
      var b := n + |chunks[0]|;
      var p := Assemble(h, chunks[0]);
      NextChunk(h.lineParser, s, cuts, n, chunks);
      OfferedBounds(h.lineParser, s, cuts, n, b);
      IncompleteFront(s, b);
      AssembleFollows(h, s, cuts, n, b);
      CalmSplits(s, cuts, n, b, |s|);
      if p.result.NeedsMore? {
        OpenFrom(p.next, s, cuts, b, chunks[1..]);
      }
    }
  }

  lemma FreshFollows(s: seq<byte>, cuts: set<int>)
    ensures Follows(EMPTY.lineParser, s, cuts, 0)
  {
    assert s[0..0] == [];
  }

  /** For every chunking of every stream without an empty line, as is the front of every other up to its first:
      every call asks for more if and only if the line parser does not panic, which the stream and its cuts decide;
      a missed CR LF does no harm to that. */
  lemma AsksForMoreIff(chunks: seq<seq<byte>>)
    requires BlockOf(Flatten(chunks)).Incomplete?
    ensures var s := Flatten(chunks);
            var r := RunHttp(EMPTY, chunks);
            && (r.RunOpen? <==> forall i :: !Crashes(s, Cuts(chunks), i))
            && (r.RunCrashed? <==> exists i :: Crashes(s, Cuts(chunks), i))
  {
    hide *;
    var s, cuts := Flatten(chunks), Cuts(chunks);
    AllAhead(chunks);
    FreshFollows(s, cuts);
    OpenFrom(EMPTY, s, cuts, 0, chunks);
    CrashesWithin(s, cuts);
  }

  /** For every chunking of every stream: as long as no byte of the header block is dangerous, calls ask for
      more until the block is complete, and the one that completes it hands over, with as many headers as there are
      non-empty lines but one - wherever the cuts are. Of a stream without an empty line the run is right, and
      stays open, if and only if the line parser does not panic. */
  lemma TimingIsRight(chunks: seq<seq<byte>>)
    ensures var s := Flatten(chunks);
            && (Orderly(s, Cuts(chunks), 0, BlockEnd(s)) ==>
                  Timing(RunHttp(EMPTY, chunks)) == Timing(ExpectedRun([], chunks)))
            && (BlockOf(s).Incomplete? ==>
                  (RunHttp(EMPTY, chunks) == ExpectedRun([], chunks) <==> forall i :: !Crashes(s, Cuts(chunks), i)))
  {
    hide *;
    var s := Flatten(chunks);
    FreshInTime(chunks);
    assert s[..0] == [] && [] + s == s;
    if Orderly(s, Cuts(chunks), 0, BlockEnd(s)) {
      TimingFrom(EMPTY, s, Cuts(chunks), 0, chunks);
    }
    if BlockOf(s).Incomplete? {
      AsksForMoreIff(chunks);
      NoLinesInNothing();
      ExpectedIsBlock([], chunks);
    }
  }
}
