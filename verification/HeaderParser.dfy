/** src/http_parse/mod.rs: the header assembler on top of the line parser. What is modelled is everything up
    to the call of httparse: the bytes and the header capacity it is given, and when. */
module HeaderParsers {
  import opened Bytes
  import opened Lines
  import opened LineParsers

  // -- The assembler as written ----------------------------------------------------------------

  /** The fields of `HttpHeaderParser`. */
  datatype Header = Header(data: seq<byte>, linesCnt: nat, lineParser: State)

  const EMPTY := Header([], 0, FRESH)

  /** How a call of `parse_http` ends: it asks httparse to parse `data` with room for `capacity` headers, it
      needs more input, or it panics. */
  datatype Result = Handed(data: seq<byte>, capacity: nat) | NeedsMore | Crash

  datatype Parsed = Parsed(result: Result, next: Header)

  function Capacity(linesCnt: nat): nat { if linesCnt > 0 then linesCnt - 1 else 0 }

  /** One call of `parse_http`. As written, bytes of a line that does not end in this call never reach
      `data`. */
  function Assemble(h: Header, input: seq<byte>): Parsed
    decreases |input|
  {
    CountInRange(h.lineParser, input);
    var c := ParseLine(h.lineParser, input);
    match c.answer
    case NoLine => Parsed(NeedsMore, h.(lineParser := c.next))
    case Panic => Parsed(Crash, h.(lineParser := c.next))
    case Line(l, k) =>
      var data := h.data + input[..k];
      if l != [] then Assemble(Header(data, h.linesCnt + 1, c.next), input[k..])
      else Parsed(Handed(data, Capacity(h.linesCnt)), Header(data, h.linesCnt, c.next))
  }

  /** One turn of the loop. */
  lemma AssembleStep(h: Header, input: seq<byte>)
    ensures var c := ParseLine(h.lineParser, input);
            match c.answer
            case NoLine => Assemble(h, input) == Parsed(NeedsMore, h.(lineParser := c.next))
            case Panic => Assemble(h, input) == Parsed(Crash, h.(lineParser := c.next))
            case Line(l, k) =>
              && 1 <= k <= |input|
              && Assemble(h, input) ==
                 if l != [] then Assemble(Header(h.data + input[..k], h.linesCnt + 1, c.next), input[k..])
                 else Parsed(Handed(h.data + input[..k], Capacity(h.linesCnt)),
                             Header(h.data + input[..k], h.linesCnt, c.next))
  {
    CountInRange(h.lineParser, input);
    hide ParseLine;
  }

  class HttpHeaderParser {
    var data: seq<byte>
    var linesCnt: nat
    const lineParser: LineParser

    constructor ()
      ensures Value() == EMPTY && fresh(lineParser)
    {
      data, linesCnt := [], 0;
      lineParser := new LineParser();
    }

    ghost function Value(): Header
      reads this, lineParser
    {
      Header(data, linesCnt, lineParser.Value())
    }

    method ParseHttp(input: seq<byte>) returns (r: Result)
      modifies this, lineParser
      ensures Parsed(r, Value()) == Assemble(old(Value()), input)
    {
      hide Assemble, ParseLine;
      var start := 0;
      while true
        invariant 0 <= start <= |input|
        invariant Assemble(old(Value()), input) == Assemble(Value(), input[start..])
        decreases |input| - start
      {
        var rest := input[start..];
        AssembleStep(Value(), rest);
        var a := lineParser.ParseLineHttp(rest);
        match a
        case NoLine => return NeedsMore;
        case Panic => return Crash;
        case Line(l, p) =>
          assert rest[..p] == input[start..start + p] && rest[p..] == input[start + p..];
          data := data + input[start..start + p];
          if l != [] {
            linesCnt := linesCnt + 1;
            start := start + p;
            continue;
          }
          var capacity := if linesCnt > 0 then linesCnt - 1 else 0;
          return Handed(data, capacity);
      }
    }
  }

  /** The calls of a whole run, up to the first that does not ask for more. */
  datatype Run = RunHanded(index: nat, data: seq<byte>, capacity: nat) | RunCrashed(index: nat) | RunOpen

  function LaterBy(r: Run, n: nat): Run {
    match r
    case RunHanded(i, d, c) => RunHanded(i + n, d, c)
    case RunCrashed(i) => RunCrashed(i + n)
    case RunOpen => RunOpen
  }

  function Later(r: Run): Run { LaterBy(r, 1) }

  function RunHttp(h: Header, chunks: seq<seq<byte>>): Run
    decreases |chunks|
  {
    if chunks == [] then RunOpen
    else
      var p := Assemble(h, chunks[0]);
      match p.result
      case Handed(d, c) => RunHanded(0, d, c)
      case Crash => RunCrashed(0)
      case NeedsMore => Later(RunHttp(p.next, chunks[1..]))
  }

  /** A run on the object. */
  method ParseHttpChunks(parser: HttpHeaderParser, chunks: seq<seq<byte>>) returns (r: Run)
    modifies parser, parser.lineParser
    ensures r == RunHttp(old(parser.Value()), chunks)
  {
    hide Assemble;
    var later := 0;
    while later < |chunks|
      invariant 0 <= later <= |chunks|
      invariant RunHttp(old(parser.Value()), chunks) == LaterBy(RunHttp(parser.Value(), chunks[later..]), later)
    {
      assert chunks[later..][0] == chunks[later] && chunks[later..][1..] == chunks[later + 1..];
      var p := parser.ParseHttp(chunks[later]);
      match p
      case Handed(d, c) => return RunHanded(later, d, c);
      case Crash => return RunCrashed(later);
      case NeedsMore => later := later + 1;
    }
    return RunOpen;
  }

  // -- The reference ---------------------------------------------------------------------------

  /** The header block at the front of a stream: its length, up to and including the first empty line, and
      its number of non-empty lines. */
  datatype Block = Incomplete | Complete(length: nat, lines: nat)

  function BlockOf(s: seq<byte>): (b: Block)
    ensures b.Complete? ==> 2 <= b.length <= |s|
    decreases |s|
  {
    var i := FirstCrlf(s);
    if i == -1 then Incomplete
    else if i == 0 then Complete(2, 0)
    else
      match BlockOf(s[i + 2..])
      case Incomplete => Incomplete
      case Complete(n, k) => Complete(n + i + 2, k + 1)
  }

  /** What a run should be, for a stream of which `before` has already been offered. */
  function ExpectedRun(before: seq<byte>, chunks: seq<seq<byte>>): Run
    decreases |chunks|
  {
    if chunks == [] then RunOpen
    else
      var now := before + chunks[0];
      match BlockOf(now)
      case Complete(n, k) => RunHanded(0, now[..n], Capacity(k))
      case Incomplete => Later(ExpectedRun(now, chunks[1..]))
  }

  /** Every chunk before the one that completes the header block ends where a line ends. */
  predicate WholeLines(before: seq<byte>, chunks: seq<seq<byte>>)
    decreases |chunks|
  {
    chunks == [] || BlockOf(before + chunks[0]).Complete?
    || (AtLineEnd(before + chunks[0]) && WholeLines(before + chunks[0], chunks[1..]))
  }

  /** A line that ends in CR, followed by one that begins with LF: CR CR LF LF. */
  ghost predicate StalePair(s: seq<byte>) {
    exists i :: CrlfAt(s, i) && 1 <= i && i + 2 < |s| && s[i - 1] == CR && s[i + 2] == LF
  }

  // -- Facts about blocks ----------------------------------------------------------------------

  lemma BlockStep(s: seq<byte>)
    ensures var i := FirstCrlf(s);
            BlockOf(s) == if i == -1 then Incomplete
                          else if i == 0 then Complete(2, 0)
                          else match BlockOf(s[i + 2..])
                               case Incomplete => Incomplete
                               case Complete(n, k) => Complete(n + i + 2, k + 1)
  {
    hide FirstCrlf;
  }

  /** The block of a stream does not change when more bytes follow. */
  lemma {:induction false} BlockGrows(a: seq<byte>, b: seq<byte>)
    requires BlockOf(a).Complete?
    ensures BlockOf(a + b) == BlockOf(a)
    decreases |a|
  {
    hide *;
    BlockStep(a);
    BlockStep(a + b);
    FirstOfPrefix(a, b);
    var i := FirstCrlf(a);
    if i > 0 {
      assert (a + b)[i + 2..] == a[i + 2..] + b;
      BlockGrows(a[i + 2..], b);
    }
  }

  lemma FirstWithin(s: seq<byte>, n: nat)
    requires FirstCrlf(s) != -1 && FirstCrlf(s) + 2 <= n <= |s|
    ensures FirstCrlf(s[..n]) == FirstCrlf(s)
  {
    assert CrlfAt(s[..n], FirstCrlf(s));
    forall j | CrlfAt(s[..n], j) ensures FirstCrlf(s) <= j {
      assert CrlfAt(s, j);
    }
    FirstIs(s[..n], FirstCrlf(s));
  }

  /** The block is complete as soon as its bytes are there. */
  lemma {:induction false} BlockFits(s: seq<byte>)
    requires BlockOf(s).Complete?
    ensures BlockOf(s[..BlockOf(s).length]) == BlockOf(s)
    decreases |s|
  {
    hide *;
    BlockStep(s);
    var n := BlockOf(s).length;
    var i := FirstCrlf(s);
    FirstWithin(s, n);
    BlockStep(s[..n]);
    if i > 0 {
      BlockFits(s[i + 2..]);
      assert s[..n][i + 2..] == s[i + 2..][..n - i - 2];
    }
  }

  /** CR LF at the front, or CR LF CR LF anywhere, completes the block. */
  lemma {:induction false} EmptyLineCompletes(s: seq<byte>, i: int)
    requires CrlfAt(s, i) && (i == 0 || CrlfAt(s, i - 2))
    ensures BlockOf(s).Complete? && BlockOf(s).length <= i + 2
    decreases |s|
  {
    BlockStep(s);
    var f := FirstCrlf(s);
    hide BlockOf, FirstCrlf;
    if f > 0 {
      assert f <= i - 2;
      assert CrlfAt(s[f + 2..], i - f - 2);
      if i - 2 != f {
        assert f + 2 <= i - 2 by { assert CrlfAt(s, f) && CrlfAt(s, i - 2); }
        assert CrlfAt(s[f + 2..], i - 2 - f - 2);
      }
      EmptyLineCompletes(s[f + 2..], i - f - 2);
    }
  }

  lemma EndsThrough(s: seq<byte>)
    requires s == CRLF
    ensures CrlfAt(s, |s| - 2)
  {
  }

  lemma EndsBehind(s: seq<byte>, t: seq<byte>, i: nat)
    requires i + 2 <= |s| && s[i..i + 2] == CRLF && t == s[i + 2..] && |t| >= 2 && CrlfAt(t, |t| - 2)
    requires t == CRLF || (|t| >= 4 && CrlfAt(t, |t| - 4))
    ensures |s| >= 4 && CrlfAt(s, |s| - 2) && CrlfAt(s, |s| - 4)
  {
    assert s[i] == s[i..i + 2][0] && s[i + 1] == s[i..i + 2][1];
    assert forall j :: 0 <= j < |t| ==> t[j] == s[i + 2 + j];
    if t == CRLF {
      assert |s| - 4 == i;
    }
  }

  lemma NoLinesInNothing()
    ensures Split([]) == Lines([], []) && BlockOf([]).Incomplete?
  {
  }

  lemma CutAtCrlfNow(s: seq<byte>)
    ensures FirstCrlf(s) == 0 ==> |s| >= 2 && s[..2] == CRLF
    ensures FirstCrlf(s) >= 0 ==> FirstCrlf(s) + 2 <= |s| && s[FirstCrlf(s)..FirstCrlf(s) + 2] == CRLF
  {
    hide FirstCrlf;
  }

  /** A block that ends with its stream: its last line is its only empty one. */
  lemma {:induction false} BlockEnds(s: seq<byte>)
    requires BlockOf(s).Complete? && BlockOf(s).length == |s|
    ensures |Split(s).lines| == BlockOf(s).lines + 1 && Split(s).rest == []
    ensures CrlfAt(s, |s| - 2)
    ensures if BlockOf(s).lines == 0 then s == CRLF else |s| >= 4 && CrlfAt(s, |s| - 4)
    decreases |s|
  {
    hide *;
    BlockStep(s);
    SplitStep(s);
    var i := FirstCrlf(s);
    CutAtCrlfNow(s);
    if i == 0 {
      assert s[..2] == s && s[2..] == [];
      NoLinesInNothing();
      EndsThrough(s);
    } else {
      BlockEnds(s[i + 2..]);
      assert |[s[..i]] + Split(s[i + 2..]).lines| == 1 + |Split(s[i + 2..]).lines|;
      EndsBehind(s, s[i + 2..], i);
    }
  }

  /** Complete lines in front of a stream only shift its block. */
  lemma {:induction false} BlockShifts(a: seq<byte>, b: seq<byte>)
    requires AtLineEnd(a) && BlockOf(a).Incomplete?
    ensures BlockOf(a + b) == match BlockOf(b)
                              case Incomplete => Incomplete
                              case Complete(n, k) => Complete(|a| + n, |Split(a).lines| + k)
    decreases |a|
  {
    hide *;
    BlockStep(a);
    SplitStep(a);
    if a == [] {
      assert a + b == b;
      NoLinesInNothing();
    } else {
      var i := FirstCrlf(a);
      var c := a[i + 2..];
      LineEndOfTail(a);
      FirstOfPrefix(a, b);
      BlockStep(a + b);
      assert (a + b)[i + 2..] == c + b;
      BlockShifts(c, b);
      assert |[a[..i]] + Split(c).lines| == 1 + |Split(c).lines|;
    }
  }

  lemma {:induction false} RestEnds(s: seq<byte>)
    ensures EndsInCr(Split(s).rest) ==> EndsInCr(s)
    decreases |s|
  {
    SplitStep(s);
    var i := FirstCrlf(s);
    if i != -1 {
      RestEnds(s[i + 2..]);
    }
    hide Split, FirstCrlf;
  }

  /** Appending a piece that ends with its first CR LF completes one line. */
  lemma OneMoreLine(a: seq<byte>, piece: seq<byte>)
    requires !EndsInCr(a) && |piece| >= 2 && FirstCrlf(piece) == |piece| - 2
    ensures |Split(a + piece).lines| == |Split(a).lines| + 1 && Split(a + piece).rest == []
  {
    var r := Split(a).rest;
    SplitConcat(a, piece);
    RestEnds(a);
    FirstAcross(r, piece);
    SplitStep(r + piece);
    NoLinesInNothing();
    hide Split, FirstCrlf;
    assert (r + piece)[|r| + |piece| - 2 + 2..] == [];
  }

  /** A bare LF behind something other than CR completes none. */
  lemma NoMoreLine(a: seq<byte>)
    requires !EndsInCr(a)
    ensures |Split(a + [LF]).lines| == |Split(a).lines|
  {
    var r := Split(a).rest;
    SplitConcat(a, [LF]);
    RestEnds(a);
    FirstAcross(r, [LF]);
    SplitStep(r + [LF]);
    hide Split;
  }

  // -- While every chunk ends a line -----------------------------------------------------------

  /** The assembler has exactly the complete lines s. */
  ghost predicate InStep(h: Header, s: seq<byte>) {
    && h.data == s && AtLineEnd(s) && BlockOf(s).Incomplete? && !StalePair(s)
    && h.linesCnt == |Split(s).lines|
    && h.lineParser.buf == []
    && (h.lineParser.sawReturn <==> |s| >= 3 && s[|s| - 3] == CR)
  }

  /** Each line counted brought at most one CR LF into `data`, and exactly one if it came in one piece. */
  ghost predicate Counted(h: Header) {
    && !EndsInCr(h.data)
    && |Split(h.data).lines| <= h.linesCnt
    && (|Split(h.data).lines| == h.linesCnt ==> Split(h.data).rest == [])
  }

  /** The assembler has lost bytes of s, for good. */
  ghost predicate Behind(h: Header, s: seq<byte>) {
    && |h.data| + |h.lineParser.buf| <= |s| && |h.data| < |s|
    && (EndsInCr(h.lineParser.buf) <==> EndsInCr(s))
    && (h.lineParser.buf != [] ==> (h.lineParser.sawReturn <==> EndsInCr(s)))
    && Counted(h)
  }

  /** The first call takes the branch for a CR LF that was cut in two. */
  predicate Rejoins(p: State, c: seq<byte>) { p.sawReturn && |c| > 1 && c[0] == LF }

  lemma StaleCrashes(h: Header, s: seq<byte>, c: seq<byte>, n: nat)
    requires InStep(h, s) && Rejoins(h.lineParser, c) && |s| < n <= |s + c|
    ensures Assemble(h, c).result.Crash?
    ensures StalePair((s + c)[..n])
  {
    hide FirstCrlf, Split, BlockOf;
    var i := |s| - 2;
    var t := (s + c)[..n];
    assert CrlfAt(t, i) && 1 <= i && i + 2 < |t| && t[i - 1] == CR && t[i + 2] == LF;
  }

  /** Complete lines appended without joining a line that ends in CR to one that begins with LF. */
  lemma NoStaleAfter(s: seq<byte>, x: seq<byte>)
    requires AtLineEnd(s) && !StalePair(s) && |x| >= 2 && FirstCrlf(x) == |x| - 2
    requires !(|s| >= 3 && s[|s| - 3] == CR && x[0] == LF)
    ensures !StalePair(s + x)
  {
    var t := s + x;
    assert s != [] ==> s[|s| - 1] == LF;
    forall j | CrlfAt(t, j) && 1 <= j && j + 2 < |t| && t[j - 1] == CR ensures t[j + 2] != LF {
      if j + 2 < |s| {
        assert CrlfAt(s, j);
      } else if j >= |s| {
        assert CrlfAt(x, j - |s|);
      }
    }
  }

  lemma NotRejoined(h: Header, s: seq<byte>, c: seq<byte>)
    requires InStep(h, s) && FirstCrlf(c) > 0 && !Rejoins(h.lineParser, c)
    ensures h.lineParser.buf == [] && !(h.lineParser.sawReturn && c[0] == LF)
  {
    hide Split, BlockOf, StalePair;
  }

  lemma WholeLineCall(h: Header, c: seq<byte>)
    requires h.lineParser.buf == [] && FirstCrlf(c) > 0 && !Rejoins(h.lineParser, c)
    ensures var k := FirstCrlf(c) + 2;
            Assemble(h, c) == Assemble(Header(h.data + c[..k], h.linesCnt + 1, State([], EndsInCr(c[..k - 2]))), c[k..])
  {
    AssembleStep(h, c);
    hide Assemble, FirstCrlf;
    assert [] + c[..FirstCrlf(c)] == c[..FirstCrlf(c)];
  }

  lemma InStepParts(h: Header, s: seq<byte>)
    requires InStep(h, s)
    ensures h.data == s && AtLineEnd(s) && BlockOf(s).Incomplete? && !StalePair(s) && h.linesCnt == |Split(s).lines|
    ensures h.lineParser.buf == [] && (h.lineParser.sawReturn <==> |s| >= 3 && s[|s| - 3] == CR)
  {
    hide Split, BlockOf, StalePair;
  }

  lemma MakeInStep(h: Header)
    requires AtLineEnd(h.data) && BlockOf(h.data).Incomplete? && !StalePair(h.data)
    requires h.linesCnt == |Split(h.data).lines| && h.lineParser.buf == []
    requires |h.data| >= 3 && (h.lineParser.sawReturn <==> h.data[|h.data| - 3] == CR)
    ensures InStep(h, h.data)
  {
    hide Split, BlockOf, StalePair;
  }

  lemma EndOfAppended(s: seq<byte>, x: seq<byte>)
    requires |x| > 2 && FirstCrlf(x) == |x| - 2
    ensures AtLineEnd(s + x) && ((s + x)[|s + x| - 3] == CR <==> EndsInCr(x[..|x| - 2]))
  {
    hide FirstCrlf;
    assert CrlfAt(s + x, |s + x| - 2);
  }

  lemma LastIsLf(s: seq<byte>)
    requires AtLineEnd(s)
    ensures !EndsInCr(s)
  {
  }

  lemma BlockOfLine(x: seq<byte>)
    requires |x| > 2 && FirstCrlf(x) == |x| - 2
    ensures BlockOf(x).Incomplete?
  {
    BlockStep(x);
    assert x[|x| - 2 + 2..] == [];
    NoLinesInNothing();
  }

  lemma AppendedInStep(h: Header, s: seq<byte>, x: seq<byte>)
    requires InStep(h, s) && |x| > 2 && FirstCrlf(x) == |x| - 2
    requires !(h.lineParser.sawReturn && x[0] == LF)
    ensures h.data == s
    ensures InStep(Header(s + x, h.linesCnt + 1, State([], EndsInCr(x[..|x| - 2]))), s + x)
  {
    InStepParts(h, s);
    hide *;
    NoStaleAfter(s, x);
    LastIsLf(s);
    OneMoreLine(s, x);
    BlockOfLine(x);
    BlockShifts(s, x);
    EndOfAppended(s, x);
    MakeInStep(Header(s + x, h.linesCnt + 1, State([], EndsInCr(x[..|x| - 2]))));
  }

  /** One whole, non-empty line of a chunk keeps the assembler in step. */
  lemma LineInStep(h: Header, s: seq<byte>, c: seq<byte>)
    requires InStep(h, s) && FirstCrlf(c) > 0 && !Rejoins(h.lineParser, c)
    ensures var k := FirstCrlf(c) + 2;
            var next := Header(s + c[..k], h.linesCnt + 1, State([], EndsInCr(c[..k - 2])));
            && k <= |c|
            && InStep(next, s + c[..k])
            && Assemble(h, c) == Assemble(next, c[k..])
  {
    hide *;
    var k := FirstCrlf(c) + 2;
    NotRejoined(h, s, c);
    WholeLineCall(h, c);
    FirstWithin(c, k);
    AppendedInStep(h, s, c[..k]);
    assert c[..k][..k - 2] == c[..k - 2];
  }

  /** What a call makes of a chunk while the assembler is in step. */
  ghost predicate CallInStep(p: Parsed, now: seq<byte>) {
    match BlockOf(now)
    case Complete(n, k) =>
      if StalePair(now[..n]) then p.result.Crash? else p.result == Handed(now[..n], Capacity(k))
    case Incomplete =>
      if !AtLineEnd(now) then p.result.Crash? || (p.result.NeedsMore? && Behind(p.next, now))
      else if StalePair(now) then p.result.Crash?
      else p.result.NeedsMore? && InStep(p.next, now)
  }

  lemma NoBytes(h: Header, s: seq<byte>)
    requires InStep(h, s)
    ensures CallInStep(Assemble(h, []), s)
  {
    hide Split, BlockOf, StalePair;
    assert h.lineParser.buf + [] == h.lineParser.buf;
  }

  lemma CrashInStep(h: Header, s: seq<byte>, c: seq<byte>)
    requires InStep(h, s) && Rejoins(h.lineParser, c)
    ensures CallInStep(Assemble(h, c), s + c)
  {
    BlockShifts(s, c);
    assert (s + c)[..|s + c|] == s + c;
    StaleCrashes(h, s, c, |s + c|);
    if BlockOf(s + c).Complete? {
      StaleCrashes(h, s, c, BlockOf(s + c).length);
    }
    hide Assemble, BlockOf, StalePair, Split, Rejoins;
  }

  lemma QuietCall(h: Header, c: seq<byte>)
    requires FirstCrlf(c) == -1 && !Rejoins(h.lineParser, c)
    ensures Assemble(h, c) == Parsed(NeedsMore, h.(lineParser := ParseLine(h.lineParser, c).next))
  {
    AssembleStep(h, c);
    hide Assemble, FirstCrlf;
  }

  lemma NotAtLineEnd(s: seq<byte>, c: seq<byte>)
    requires AtLineEnd(s) && c != [] && FirstCrlf(c) == -1
    ensures !AtLineEnd(s + c)
  {
    assert |c| >= 2 ==> !CrlfAt(c, |c| - 2);
  }

  lemma BufferedNext(p: State, c: seq<byte>)
    requires p.buf == [] && c != [] && FirstCrlf(c) == -1 && !Rejoins(p, c)
    ensures ParseLine(p, c).next == State(c, EndsInCr(c))
  {
    hide FirstCrlf;
    assert [] + c == c;
  }

  lemma BufferedInStep(h: Header, s: seq<byte>, c: seq<byte>)
    requires h.data == s && h.lineParser.buf == [] && h.linesCnt == |Split(s).lines| && Split(s).rest == []
             && !EndsInCr(s)
    requires c != [] && FirstCrlf(c) == -1 && !Rejoins(h.lineParser, c)
    requires !AtLineEnd(s + c) && BlockOf(s + c).Incomplete?
    requires Assemble(h, c) == Parsed(NeedsMore, h.(lineParser := ParseLine(h.lineParser, c).next))
    ensures CallInStep(Assemble(h, c), s + c)
  {
    BufferedNext(h.lineParser, c);
    hide Assemble, BlockOf, StalePair, Split, FirstCrlf, ParseLine, Rejoins, AtLineEnd;
  }

  lemma FallsBehind(h: Header, s: seq<byte>, c: seq<byte>)
    requires InStep(h, s) && c != [] && FirstCrlf(c) == -1 && !Rejoins(h.lineParser, c)
    ensures CallInStep(Assemble(h, c), s + c)
  {
    hide *;
    InStepParts(h, s);
    QuietCall(h, c);
    BlockStep(c);
    BlockShifts(s, c);
    LineEndIff(s);
    LastIsLf(s);
    NotAtLineEnd(s, c);
    BufferedInStep(h, s, c);
  }

  lemma EmptyCall(h: Header, c: seq<byte>)
    requires h.lineParser.buf == [] && FirstCrlf(c) == 0 && !Rejoins(h.lineParser, c)
    ensures |c| >= 2 && Assemble(h, c).result == Handed(h.data + c[..2], Capacity(h.linesCnt))
  {
    AssembleStep(h, c);
    hide Assemble;
    assert [] + c[..0] == [];
  }

  lemma HandedInStep(p: Parsed, now: seq<byte>, n: nat, k: nat)
    requires BlockOf(now) == Complete(n, k) && p.result == Handed(now[..n], Capacity(k)) && !StalePair(now[..n])
    ensures CallInStep(p, now)
  {
    hide BlockOf, StalePair;
  }

  lemma StartsInStep(h: Header, s: seq<byte>, c: seq<byte>)
    requires InStep(h, s) && FirstCrlf(c) == 0 && !Rejoins(h.lineParser, c)
    ensures |c| >= 2 && !(|s| >= 3 && s[|s| - 3] == CR && c[..2][0] == LF)
  {
    hide Split, BlockOf, StalePair;
  }

  lemma EmptyLineInStep(h: Header, s: seq<byte>, c: seq<byte>)
    requires InStep(h, s) && FirstCrlf(c) == 0 && !Rejoins(h.lineParser, c)
    ensures CallInStep(Assemble(h, c), s + c)
  {
    StartsInStep(h, s, c);
    hide *;
    InStepParts(h, s);
    EmptyCall(h, c);
    BlockStep(c);
    BlockShifts(s, c);
    FirstWithin(c, 2);
    NoStaleAfter(s, c[..2]);
    assert (s + c)[..|s| + 2] == s + c[..2];
    HandedInStep(Assemble(h, c), s + c, |s| + 2, h.linesCnt);
  }

  lemma {:induction false} CallWhileInStep(h: Header, s: seq<byte>, c: seq<byte>)
    requires InStep(h, s)
    ensures CallInStep(Assemble(h, c), s + c)
    decreases |c|
  {
    hide *;
    if c == [] {
      NoBytes(h, s);
      assert s + c == s;
    } else if Rejoins(h.lineParser, c) {
      CrashInStep(h, s, c);
    } else if FirstCrlf(c) == -1 {
      FallsBehind(h, s, c);
    } else if FirstCrlf(c) == 0 {
      EmptyLineInStep(h, s, c);
    } else {
      var k := FirstCrlf(c) + 2;
      LineInStep(h, s, c);
      CallWhileInStep(Header(s + c[..k], h.linesCnt + 1, State([], EndsInCr(c[..k - 2]))), s + c[..k], c[k..]);
      assert s + c[..k] + c[k..] == s + c;
    }
  }

  // -- Once behind -----------------------------------------------------------------------------

  lemma RejoinedCounted(h: Header, c: seq<byte>)
    requires Counted(h) && Rejoins(h.lineParser, c) && h.lineParser.buf != []
    ensures ParseLine(h.lineParser, c).answer.Line? && ParseLine(h.lineParser, c).answer.count == 1
    ensures !EndsInCr(h.data + c[..1]) && c[0] == LF
    ensures |Split(h.data + c[..1]).lines| == |Split(h.data).lines|
  {
    NoMoreLine(h.data);
    hide Split, FirstCrlf;
    assert c[..1] == [LF];
  }

  lemma WholeCounted(h: Header, c: seq<byte>)
    requires Counted(h) && !Rejoins(h.lineParser, c) && ParseLine(h.lineParser, c).answer.Line?
    ensures var k := ParseLine(h.lineParser, c).answer.count;
            && 2 <= k <= |c| && !EndsInCr(h.data + c[..k]) && c[k - 1] == LF
            && |Split(h.data + c[..k]).lines| == |Split(h.data).lines| + 1
            && Split(h.data + c[..k]).rest == []
  {
    var k := FirstCrlf(c) + 2;
    FirstWithin(c, k);
    OneMoreLine(h.data, c[..k]);
    hide Split, FirstCrlf;
  }

  /** Any line taken keeps the count; a line that was cut in two breaks the tie for good. */
  lemma LineCounted(h: Header, c: seq<byte>)
    requires Counted(h) && ParseLine(h.lineParser, c).answer.Line?
    ensures var k := ParseLine(h.lineParser, c).answer.count;
            var data := h.data + c[..k];
            && 1 <= k <= |c| && !EndsInCr(data) && c[k - 1] == LF
            && |Split(data).lines| <= |Split(h.data).lines| + 1
            && (|Split(data).lines| == |Split(h.data).lines| + 1
                ==> Split(data).rest == [] && !Rejoins(h.lineParser, c))
  {
    if Rejoins(h.lineParser, c) {
      RejoinedCounted(h, c);
    } else {
      WholeCounted(h, c);
    }
    hide *;
  }

  lemma LineBehind(h: Header, s: seq<byte>, c: seq<byte>)
    requires Behind(h, s) && ParseLine(h.lineParser, c).answer.Line?
    ensures var a := ParseLine(h.lineParser, c);
            1 <= a.answer.count <= |c| &&
            Behind(Header(h.data + c[..a.answer.count], h.linesCnt + 1, a.next), s + c[..a.answer.count])
  {
    LineCounted(h, c);
    hide Split, FirstCrlf;
  }

  lemma BufferedBehind(h: Header, s: seq<byte>, c: seq<byte>)
    requires Behind(h, s) && ParseLine(h.lineParser, c).answer.NoLine?
    ensures Behind(h.(lineParser := ParseLine(h.lineParser, c).next), s + c)
  {
    hide Split, FirstCrlf;
  }

  lemma {:induction false} StaysBehind(h: Header, s: seq<byte>, c: seq<byte>)
    requires Behind(h, s) && Assemble(h, c).result.NeedsMore?
    ensures Behind(Assemble(h, c).next, s + c)
    decreases |c|
  {
    AssembleStep(h, c);
    hide Assemble;
    var a := ParseLine(h.lineParser, c);
    if a.answer.Line? {
      LineCounted(h, c);
      LineBehind(h, s, c);
      hide *;
      var k := a.answer.count;
      StaysBehind(Header(h.data + c[..k], h.linesCnt + 1, a.next), s + c[..k], c[k..]);
      assert s + c[..k] + c[k..] == s + c;
    } else {
      BufferedBehind(h, s, c);
    }
    hide *;
  }

  lemma SlicesJoin(a: seq<byte>, c: seq<byte>, k: nat, y: nat)
    requires k + y <= |c|
    ensures a + c[..k] + c[k..][..y] == a + c[..k + y]
  {
    assert c[..k] + c[k..][..y] == c[..k + y];
  }

  lemma RejoinedLine(h: Header, c: seq<byte>)
    ensures Rejoins(h.lineParser, c) && |h.lineParser.buf| == 1 ==> ParseLine(h.lineParser, c).answer == Line([], 1)
  {
  }

  lemma EmptyCounted(h: Header, data: seq<byte>)
    requires Counted(h) && |Split(data).lines| <= |Split(h.data).lines| + 1
    ensures |Split(data).lines| <= h.linesCnt + 1
    ensures |Split(data).lines| == h.linesCnt + 1 ==>
              |Split(data).lines| == |Split(h.data).lines| + 1 && |Split(h.data).lines| == h.linesCnt
  {
    hide Split;
  }

  lemma NextCounted(h: Header, next: Header)
    requires Counted(h) && !EndsInCr(next.data) && next.linesCnt == h.linesCnt + 1
    requires |Split(next.data).lines| <= |Split(h.data).lines| + 1
    requires |Split(next.data).lines| == |Split(h.data).lines| + 1 ==> Split(next.data).rest == []
    ensures Counted(next)
  {
    hide Split;
  }

  /** What is handed over once behind: how far it reaches into the chunk, and how the lines add up. */
  lemma {:induction false} HandedCounted(h: Header, c: seq<byte>) returns (x: nat, lines: nat)
    requires Counted(h) && Assemble(h, c).result.Handed?
    ensures 1 <= x <= |c|
    ensures Assemble(h, c).result == Handed(h.data + c[..x], Capacity(lines))
    ensures |Split(h.data + c[..x]).lines| <= lines + 1
    ensures |Split(h.data + c[..x]).lines| == lines + 1
            ==> |Split(h.data).lines| == h.linesCnt && !Rejoins(h.lineParser, c)
    ensures Rejoins(h.lineParser, c) && |h.lineParser.buf| == 1 ==> x == 1
    decreases |c|
  {
    hide *;
    AssembleStep(h, c);
    LineCounted(h, c);
    RejoinedLine(h, c);
    var a := ParseLine(h.lineParser, c);
    var k := a.answer.count;
    var data := h.data + c[..k];
    if a.answer.line == [] {
      x, lines := k, h.linesCnt;
      EmptyCounted(h, data);
    } else {
      var next := Header(data, h.linesCnt + 1, a.next);
      NextCounted(h, next);
      EmptyCounted(h, data);
      var y;
      y, lines := HandedCounted(next, c[k..]);
      x := k + y;
      SlicesJoin(h.data, c, k, y);
    }
  }

  lemma BlockPastFront(s: seq<byte>, c: seq<byte>)
    requires BlockOf(s).Incomplete? && BlockOf(s + c).Complete?
    ensures |s| < BlockOf(s + c).length <= |s + c|
  {
    var n := BlockOf(s + c).length;
    if n <= |s| {
      BlockFits(s + c);
      assert (s + c)[..n] == s[..n] && s[..n] + s[n..] == s;
      BlockGrows(s[..n], s[n..]);
    }
  }

  lemma BehindParts(h: Header, s: seq<byte>)
    requires Behind(h, s)
    ensures |h.data| < |s| && |h.data| + |h.lineParser.buf| <= |s| && Counted(h)
    ensures |Split(h.data).lines| == h.linesCnt ==> Split(h.data).rest == []
    ensures s != [] && s[|s| - 1] == CR ==> h.lineParser.buf != [] && h.lineParser.sawReturn
  {
    hide Split;
  }

  lemma SameCapacity(k: nat, lines: nat)
    requires k > 0 && k <= lines && Capacity(k) == Capacity(lines)
    ensures lines == k
  {
  }

  /** An empty first line, cut between CR and LF. */
  lemma CutShort(h: Header, s: seq<byte>, c: seq<byte>, n: nat)
    requires |h.data| < |s| < n <= |s + c| && (s + c)[..n] == CRLF
    requires |h.data| + |h.lineParser.buf| <= |s|
    requires s != [] && s[|s| - 1] == CR ==> h.lineParser.buf != [] && h.lineParser.sawReturn
    ensures |s| == 1 && |h.lineParser.buf| == 1 && h.data == [] && (|c| > 1 ==> Rejoins(h.lineParser, c))
  {
    assert s == CRLF[..1];
    assert c[0] == (s + c)[1] == CRLF[1];
  }

  lemma MustRejoin(p: State, block: seq<byte>, s: seq<byte>, c: seq<byte>, u: nat)
    requires (u == 1 || u == 3) && u < |c| && block == s + c[..u]
    requires |block| >= 4 && CrlfAt(block, |block| - 2) && CrlfAt(block, |block| - 4)
    requires s != [] && s[|s| - 1] == CR ==> p.sawReturn
    ensures Rejoins(p, c)
  {
    assert c[0] == block[|s|] && s[|s| - 1] == block[|s| - 1];
  }

  lemma SameByte(block: seq<byte>, data: seq<byte>, s: seq<byte>, c: seq<byte>, u: nat, x: nat, i: nat)
    requires i < u < x <= |c| && block == s + c[..u] && block == data + c[..x]
    ensures |data| + i < |block| && |s| + i < |block| && block[|data| + i] == block[|s| + i]
  {
    assert block[|s| + i] == c[..u][i] && block[|data| + i] == c[..x][i];
  }

  lemma EmptyLineBefore(block: seq<byte>, data: seq<byte>, s: seq<byte>, c: seq<byte>, u: nat, x: nat)
    requires u < x <= |c| && (u == 2 || u >= 4) && block == s + c[..u] && block == data + c[..x]
    requires |block| >= 4 && CrlfAt(block, |block| - 2) && CrlfAt(block, |block| - 4)
    requires AtLineEnd(data)
    ensures var e := |data| + u; CrlfAt(block, e - 2) && (e == 2 || CrlfAt(block, e - 4))
  {
    var e := |data| + u;
    SameByte(block, data, s, c, u, x, u - 2);
    SameByte(block, data, s, c, u, x, u - 1);
    if u >= 4 {
      SameByte(block, data, s, c, u, x, u - 4);
      SameByte(block, data, s, c, u, x, u - 3);
    } else if data != [] {
      assert block[e - 4] == data[|data| - 2] && block[e - 3] == data[|data| - 1];
    }
  }

  /** Data that is short of the front s reaches further into the chunk than the block, past an empty line. */
  lemma TooFar(p: State, block: seq<byte>, data: seq<byte>, s: seq<byte>, c: seq<byte>, u: nat, x: nat)
    requires 0 < u <= |c| && x <= |c| && block == s + c[..u] && block == data + c[..x]
    requires |block| >= 4 && CrlfAt(block, |block| - 2) && CrlfAt(block, |block| - 4)
    requires AtLineEnd(data) && !Rejoins(p, c)
    requires s != [] && s[|s| - 1] == CR ==> p.sawReturn
    requires BlockOf(block).Complete? && BlockOf(block).length == |block|
    ensures x <= u
  {
    hide *;
    if x > u && (u == 1 || u == 3) {
      MustRejoin(p, block, s, c, u);
    } else if x > u {
      EmptyLineBefore(block, data, s, c, u, x);
      EmptyLineCompletes(block, |data| + u - 2);
    }
  }

  /** Once behind, the block handed over is never the stream's block with the right capacity. */
  lemma NeverRight(h: Header, s: seq<byte>, c: seq<byte>)
    requires Behind(h, s) && BlockOf(s).Incomplete? && BlockOf(s + c).Complete?
    ensures Assemble(h, c).result != Handed((s + c)[..BlockOf(s + c).length], Capacity(BlockOf(s + c).lines))
  {
    hide *;
    var n, k := BlockOf(s + c).length, BlockOf(s + c).lines;
    var block := (s + c)[..n];
    BlockFits(s + c);
    BlockPastFront(s, c);
    BlockEnds(block);
    BehindParts(h, s);
    if Assemble(h, c).result == Handed(block, Capacity(k)) {
      var x, lines := HandedCounted(h, c);
      assert |h.data| + x == n;
      if k == 0 {
        CutShort(h, s, c, n);
      } else {
        assert lines == k by { SameCapacity(k, lines); }
        LineEndIff(h.data);
        assert block == s + c[..n - |s|];
        TooFar(h.lineParser, block, h.data, s, c, n - |s|, x);
      }
    }
  }

  // -- Whole runs ------------------------------------------------------------------------------

  lemma {:induction false} BehindRun(h: Header, s: seq<byte>, chunks: seq<seq<byte>>)
    requires Behind(h, s) && BlockOf(s).Incomplete? && ExpectedRun(s, chunks).RunHanded?
    ensures RunHttp(h, chunks) != ExpectedRun(s, chunks)
    decreases |chunks|
  {
    var now := s + chunks[0];
    var p := Assemble(h, chunks[0]);
    hide Behind, BlockOf, Assemble;
    if BlockOf(now).Complete? {
      NeverRight(h, s, chunks[0]);
    } else if p.result.NeedsMore? {
      StaysBehind(h, s, chunks[0]);
      BehindRun(p.next, now, chunks[1..]);
    }
  }

  /** The block begins with what was offered before. */
  lemma {:induction false} ExpectedExtends(s: seq<byte>, chunks: seq<seq<byte>>)
    requires BlockOf(s).Incomplete? && ExpectedRun(s, chunks).RunHanded?
    ensures s <= ExpectedRun(s, chunks).data
    decreases |chunks|
  {
    var now := s + chunks[0];
    if BlockOf(now).Complete? {
      BlockPastFront(s, chunks[0]);
    } else {
      ExpectedExtends(now, chunks[1..]);
    }
    hide BlockOf;
  }

  lemma StaleInPrefix(a: seq<byte>, b: seq<byte>)
    requires a <= b && StalePair(a)
    ensures StalePair(b)
  {
    var i :| CrlfAt(a, i) && 1 <= i && i + 2 < |a| && a[i - 1] == CR && a[i + 2] == LF;
    assert CrlfAt(b, i);
  }

  lemma {:induction false} InStepRun(h: Header, s: seq<byte>, chunks: seq<seq<byte>>)
    requires InStep(h, s) && BlockOf(s).Incomplete? && ExpectedRun(s, chunks).RunHanded?
    ensures RunHttp(h, chunks) == ExpectedRun(s, chunks)
            <==> WholeLines(s, chunks) && !StalePair(ExpectedRun(s, chunks).data)
    decreases |chunks|
  {
    var now := s + chunks[0];
    var p := Assemble(h, chunks[0]);
    CallWhileInStep(h, s, chunks[0]);
    hide InStep, Behind, BlockOf, Assemble, StalePair, AtLineEnd;
    if BlockOf(now).Incomplete? {
      ExpectedExtends(now, chunks[1..]);
      if StalePair(now) {
        StaleInPrefix(now, ExpectedRun(s, chunks).data);
      }
      if p.result.NeedsMore? {
        if AtLineEnd(now) {
          InStepRun(p.next, now, chunks[1..]);
        } else {
          BehindRun(p.next, now, chunks[1..]);
        }
      }
    }
  }

  lemma EmptyLineCall(h: Header)
    requires h.lineParser == State([], false)
    ensures Assemble(h, CRLF).result == Handed(h.data + CRLF, Capacity(h.linesCnt))
  {
    FirstIs(CRLF, 0);
    AssembleStep(h, CRLF);
    hide Assemble, FirstCrlf;
    assert CRLF[..2] == CRLF && [] + CRLF[..0] == [];
  }

  lemma SecondChunk(c: seq<byte>)
    requires c == [84, CR, LF, CR, LF]
    ensures Assemble(Header([], 0, State([71, 69], false)), c).result == Handed(c, 0)
  {
    hide Assemble;
    FirstIs(c, 1);
    AssembleStep(Header([], 0, State([71, 69], false)), c);
    hide FirstCrlf, ParseLine;
    assert c[3..] == CRLF && [] + c[..3] == c[..3];
    EmptyLineCall(Header(c[..3], 1, State([], false)));
    assert c[..3] + CRLF == c;
  }

  /** "GE", then "T" CR LF CR LF: the first call keeps nothing in `data`, and what the second hands over begins
      with the "T". */
  lemma MidLineCounterexample()
    ensures Assemble(EMPTY, [71, 69]) == Parsed(NeedsMore, Header([], 0, State([71, 69], false)))
    ensures Assemble(Header([], 0, State([71, 69], false)), [84] + CRLF + CRLF).result == Handed([84] + CRLF + CRLF, 0)
  {
    hide Assemble;
    AssembleStep(EMPTY, [71, 69]);
    assert [] + [71, 69] == [71, 69];
    assert [84] + CRLF + CRLF == [84, CR, LF, CR, LF];
    SecondChunk([84] + CRLF + CRLF);
  }

  lemma StaleCall(c: seq<byte>)
    requires c == [97, CR, CR, LF, LF, CR, LF, CR, LF]
    ensures Assemble(EMPTY, c).result.Crash?
  {
    hide Assemble;
    FirstIs(c, 2);
    AssembleStep(EMPTY, c);
    assert [] + c[..2] == [97, CR];
    AssembleStep(Header([] + c[..4], 1, State([], true)), c[4..]);
  }

  lemma StaleBlock(c: seq<byte>)
    requires c == [97, CR, CR, LF, LF, CR, LF, CR, LF]
    ensures BlockOf(c) == Complete(9, 2)
  {
    var d, e := c[4..], c[7..];
    assert d == [LF, CR, LF, CR, LF] && e == [CR, LF] && d[3..] == e;
    FirstIs(c, 2);
    FirstIs(d, 1);
    FirstIs(e, 0);
    hide FirstCrlf, BlockOf;
    BlockStep(c);
    BlockStep(d);
    BlockStep(e);
  }

  /** "a" CR CR LF LF CR LF CR LF in one piece: a line that ends in CR, one that begins with LF, and the empty line.
      The second call of the line parser panics. */
  lemma StaleCounterexample()
    ensures var chunk: seq<byte> := [97, CR, CR, LF, LF, CR, LF, CR, LF];
            RunHttp(EMPTY, [chunk]) == RunCrashed(0) && ExpectedRun([], [chunk]) == RunHanded(0, chunk, 1)
  {
    hide BlockOf, Assemble;
    var c: seq<byte> := [97, CR, CR, LF, LF, CR, LF, CR, LF];
    StaleCall(c);
    StaleBlock(c);
    assert [] + c == c && c[..9] == c;
  }

  lemma FlattenFront(chunks: seq<seq<byte>>, k: nat, before: seq<byte>)
    requires chunks != [] && k < |chunks|
    ensures before + chunks[0] + Flatten(chunks[1..][..k]) == before + Flatten(chunks[..k + 1])
  {
    assert chunks[..k + 1][1..] == chunks[1..][..k];
  }

  /** What `ExpectedRun` means: the first call by which the stream holds an empty line, that stream's block,
      and the count of its non-empty lines less one. */
  lemma {:induction false} ExpectedIsBlock(before: seq<byte>, chunks: seq<seq<byte>>)
    requires BlockOf(before).Incomplete?
    ensures var e := ExpectedRun(before, chunks);
            var stream := before + Flatten(chunks);
            && (e.RunOpen? <==> BlockOf(stream).Incomplete?)
            && !e.RunCrashed?
            && (e.RunHanded? ==>
                  && e.index < |chunks|
                  && e.data == stream[..BlockOf(stream).length]
                  && e.capacity == Capacity(BlockOf(stream).lines)
                  && BlockOf(before + Flatten(chunks[..e.index])).Incomplete?
                  && BlockOf(before + Flatten(chunks[..e.index + 1])) == BlockOf(stream))
    decreases |chunks|
  {
    hide BlockOf;
    if chunks == [] {
      assert before + [] == before;
    } else {
      var now := before + chunks[0];
      var later := Flatten(chunks[1..]);
      assert now + later == before + Flatten(chunks);
      var i := ExpectedRun(before, chunks);
      if BlockOf(now).Complete? {
        BlockGrows(now, later);
        assert chunks[..0] == [] && before + Flatten([]) == before;
        assert chunks[..1][1..] == [] && Flatten(chunks[..1]) == chunks[0];
        assert now[..BlockOf(now).length] == (now + later)[..BlockOf(now).length];
      } else {
        ExpectedIsBlock(now, chunks[1..]);
        var e := ExpectedRun(now, chunks[1..]);
        if e.RunHanded? {
          FlattenFront(chunks, e.index, before);
          FlattenFront(chunks, e.index + 1, before);
        }
      }
    }
  }

  lemma NothingJoined()
    ensures Join([], []) == [] && [] + CRLF + [] == CRLF
  {
  }

  lemma PrefixAcross(s: seq<byte>, i: nat, n: nat)
    requires i + 2 <= |s| && n <= |s| - i - 2 && s[i..i + 2] == CRLF
    ensures s[..n + i + 2] == s[..i] + CRLF + s[i + 2..][..n]
  {
    assert s[..n + i + 2] == s[..i] + s[i..i + 2] + s[i + 2..n + i + 2];
  }

  /** The block in terms of the lines of the stream: it is there when some line is empty, and then it is the
      lines up to the first empty one. */
  lemma {:induction false} BlockIsLines(s: seq<byte>)
    ensures BlockOf(s).Complete? <==> [] in Split(s).lines
    ensures BlockOf(s).Complete? ==>
              var k := BlockOf(s).lines;
              && k < |Split(s).lines| && Split(s).lines[k] == []
              && (forall j :: 0 <= j < k ==> Split(s).lines[j] != [])
              && s[..BlockOf(s).length] == Join(Split(s).lines[..k + 1], [])
    decreases |s|
  {
    BlockStep(s);
    SplitStep(s);
    var i := FirstCrlf(s);
    hide *;
    if i >= 0 {
      var t := s[i + 2..];
      var lines := Split(t).lines;
      BlockIsLines(t);
      CutAtCrlfNow(s);
      if i == 0 {
        JoinCons([], [], []);
        assert ([s[..0]] + lines)[..1] == [[]] + [];
        NothingJoined();
      } else if BlockOf(t).Complete? {
        var k := BlockOf(t).lines;
        JoinCons(s[..i], lines[..k + 1], []);
        assert ([s[..i]] + lines)[..k + 2] == [s[..i]] + lines[..k + 1];
        PrefixAcross(s, i, BlockOf(t).length);
      }
    }
  }

  /** The assembler over whole runs. For every chunking of every stream that contains a complete header
      block: the calls before the block is complete ask for more, and the call that completes it hands over
      exactly the stream up to and including the first empty line, with as many headers as there are
      non-empty lines but one, or none - if and only if every earlier chunk ended where a line ends, and no line
      that ends in CR is followed by one that begins with LF. */
  lemma HeaderBlockIff(chunks: seq<seq<byte>>)
    requires ExpectedRun([], chunks).RunHanded?
    ensures RunHttp(EMPTY, chunks) == ExpectedRun([], chunks)
            <==> WholeLines([], chunks) && !StalePair(ExpectedRun([], chunks).data)
    ensures var e := ExpectedRun([], chunks);
            var lines := Split(Flatten(chunks)).lines;
            exists k: nat ::
              && k < |lines| && lines[k] == [] && (forall j :: 0 <= j < k ==> lines[j] != [])
              && e.data == Join(lines[..k + 1], []) && e.capacity == if k == 0 then 0 else k - 1
  {
    NoLinesInNothing();
    InStepRun(EMPTY, [], chunks);
    ExpectedIsBlock([], chunks);
    var s := Flatten(chunks);
    assert [] + s == s;
    BlockIsLines(s);
    var lines := Split(s).lines;
    var k := BlockOf(s).lines;
    hide *;
    assert k < |lines| && lines[k] == [];
  }
}
