/** Whole runs of the line parser of src/http_parse/line_parser.rs, in terms of the stream and of where it is
    cut into chunks: when every line comes out, when the parser panics, and that no byte is lost otherwise. */
module LineRuns {
  import opened Bytes
  import opened Lines
  import opened LineParsers

  /** Where chunks begin and end, when the first begins at n. */
  function CutsFrom(n: nat, chunks: seq<seq<byte>>): set<int>
    decreases |chunks|
  {
    {n} + if chunks == [] then {} else CutsFrom(n + |chunks[0]|, chunks[1..])
  }

  function Cuts(chunks: seq<seq<byte>>): set<int> { CutsFrom(0, chunks) }

  /** A line begins at i, but `saw_return` is still set there: the CR LF in front was cut in two and found; or
      it came in one piece and the line it ends has a CR for its last byte, or is empty and began stale itself. */
  predicate Stale(s: seq<byte>, cuts: set<int>, i: int) {
    CrlfAt(s, i - 2) && if i - 1 in cuts then i !in cuts else (i >= 3 && s[i - 3] == CR) || Stale(s, cuts, i - 2)
  }

  /** The parser panics at the LF at i: the LF is at the stale beginning of a line, and its chunk goes on. */
  predicate Crashes(s: seq<byte>, cuts: set<int>, i: int) {
    0 <= i < |s| && s[i] == LF && i + 1 !in cuts && Stale(s, cuts, i)
  }

  /** The parser misses the CR LF that ends with the LF at i: the LF is a whole chunk. */
  predicate Missed(s: seq<byte>, cuts: set<int>, i: int) {
    1 <= i < |s| && s[i] == LF && s[i - 1] == CR && i in cuts && i + 1 in cuts
  }

  predicate Dangerous(s: seq<byte>, cuts: set<int>, i: int) { Crashes(s, cuts, i) || Missed(s, cuts, i) }

  /** Nothing goes wrong in s[from..to]. */
  predicate Orderly(s: seq<byte>, cuts: set<int>, from: int, to: int) {
    forall i :: from <= i < to ==> !Dangerous(s, cuts, i)
  }

  /** Nothing panics in s[from..to]. */
  predicate Calm(s: seq<byte>, cuts: set<int>, from: int, to: int) {
    forall i :: from <= i < to ==> !Crashes(s, cuts, i)
  }

  /** p has bytes of s up to n, from the beginning of a line on, and knows whether they end in CR. */
  predicate Aligned(p: State, s: seq<byte>, n: nat) {
    && |p.buf| <= n <= |s| && s[n - |p.buf|..n] == p.buf && LineStart(s, n - |p.buf|)
    && (p.buf != [] ==> (p.sawReturn <==> EndsInCr(p.buf)))
  }

  /** What holds of p after n bytes of s unless it has panicked. */
  predicate Follows(p: State, s: seq<byte>, cuts: set<int>, n: nat) {
    Aligned(p, s, n) && if p.buf == [] then p.sawReturn <==> Stale(s, cuts, n) else !Stale(s, cuts, n)
  }

  /** And no CR LF has been missed on the way there. */
  predicate Tracks(p: State, s: seq<byte>, cuts: set<int>, n: nat) {
    Follows(p, s, cuts, n) && CrlfFree(p.buf)
  }

  /** What is offered to p next is s[n..b], all that is left of a chunk; only at the beginning of a chunk can
      there be an unfinished line. */
  predicate Offered(p: State, s: seq<byte>, cuts: set<int>, n: nat, b: nat) {
    n <= b <= |s| && b in cuts && (forall j :: n < j < b ==> j !in cuts) && (p.buf != [] ==> n in cuts)
  }

  lemma OfferedBounds(p: State, s: seq<byte>, cuts: set<int>, n: nat, b: nat)
    requires Offered(p, s, cuts, n, b)
    ensures n <= b <= |s|
  {
  }

  lemma BufAt(p: State, s: seq<byte>, n: nat)
    requires Aligned(p, s, n)
    ensures forall i :: 0 <= i < |p.buf| ==> p.buf[i] == s[n - |p.buf| + i]
  {
    forall i | 0 <= i < |p.buf| ensures p.buf[i] == s[n - |p.buf| + i] {
      assert s[n - |p.buf|..n][i] == s[n - |p.buf| + i];
    }
  }

  /** While a line is unfinished none begins. */
  lemma NoLineStart(p: State, s: seq<byte>, n: nat, i: nat)
    requires Aligned(p, s, n) && n - |p.buf| < i <= |s|
    requires forall j :: n - |p.buf| <= j && j + 2 <= i ==> !CrlfAt(s, j)
    ensures !CrlfAt(s, i - 2)
  {
  }

  /** What `saw_return` says about the last byte. */
  lemma LastByte(p: State, s: seq<byte>, cuts: set<int>, n: nat)
    requires Follows(p, s, cuts, n)
    ensures p.sawReturn <==> (n >= 1 && s[n - 1] == CR) || Stale(s, cuts, n)
    ensures n >= 1 && s[n - 1] == CR ==> p.sawReturn && p.buf != []
  {
    BufAt(p, s, n);
    hide Stale;
  }

  lemma HazardTracked(p: State, s: seq<byte>, cuts: set<int>, n: nat, b: nat)
    requires Tracks(p, s, cuts, n) && Offered(p, s, cuts, n, b)
    ensures Hazard(p, s[n..b]) <==> n < b && Dangerous(s, cuts, n)
  {
    LastByte(p, s, cuts, n);
    hide CrlfFree, Stale;
  }

  /** No byte between the first and the next line, or the end of the chunk, is dangerous. */
  lemma SafeInside(p: State, s: seq<byte>, cuts: set<int>, n: nat, b: nat, e: nat)
    requires Aligned(p, s, n) && Offered(p, s, cuts, n, b) && e <= b
    requires forall j :: n - |p.buf| <= j && j + 2 < e ==> !CrlfAt(s, j)
    ensures Orderly(s, cuts, n + 1, e)
  {
    forall i | n < i < e ensures !Dangerous(s, cuts, i) {
      NoLineStart(p, s, n, i);
    }
  }

  lemma Pending(p: State, s: seq<byte>, n: nat, b: nat)
    requires Aligned(p, s, n) && n <= b <= |s|
    ensures p.buf + s[n..b] == s[n - |p.buf|..b]
  {
  }

  lemma AlignedAfresh(s: seq<byte>, e: nat, saw: bool)
    requires 2 <= e <= |s| && CrlfAt(s, e - 2)
    ensures Aligned(State([], saw), s, e)
  {
    assert s[e..e] == [];
  }

  lemma AlignedRejoin(p: State, s: seq<byte>, n: nat)
    requires Aligned(p, s, n) && p.buf != [] && p.sawReturn && n < |s| && s[n] == LF
    ensures n >= 1 && CrlfAt(s, n - 1) && (p.buf[..|p.buf| - 1] == [] ==> LineStart(s, n - 1))
  {
    BufAt(p, s, n);
  }

  lemma AlignedRest(p: State, s: seq<byte>, n: nat, b: nat)
    requires Aligned(p, s, n) && n <= b <= |s|
    ensures Aligned(State(p.buf + s[n..b], SawAfter(p.sawReturn, s[n..b])), s, b)
  {
    Pending(p, s, n, b);
    SawIsEndsInCr(p, s[n..b]);
  }

  lemma AlignedWhole(p: State, s: seq<byte>, n: nat, b: nat)
    requires Aligned(p, s, n) && n <= b <= |s| && FirstCrlf(s[n..b]) != -1
    ensures var i := FirstCrlf(s[n..b]);
            && 0 <= i && n + i + 2 <= b && CrlfAt(s, n + i)
            && (p.buf + s[n..b][..i] == [] ==> i == 0 && LineStart(s, n))
  {
    hide FirstCrlf;
    var i := FirstCrlf(s[n..b]);
    assert s[n..b][i] == s[n + i] && s[n..b][i + 1] == s[n + i + 1];
    if p.buf + s[n..b][..i] == [] {
      assert |p.buf| + i == 0;
    }
  }

  lemma AlignedLine(p: State, s: seq<byte>, n: nat, b: nat)
    requires Aligned(p, s, n) && n <= b <= |s| && ParseLine(p, s[n..b]).answer.Line?
    ensures var c := ParseLine(p, s[n..b]);
            var e := n + c.answer.count;
            && n < e <= b && e >= 2 && CrlfAt(s, e - 2) && c.next.buf == []
            && s[n..b][c.answer.count..] == s[e..b]
            && (c.answer.line == [] ==> LineStart(s, e - 2))
  {
    hide Aligned, CrlfAt, LineStart;
    var data := s[n..b];
    var c := ParseLine(p, data);
    if p.sawReturn && |data| > 1 && data[0] == LF {
      AlignedRejoin(p, s, n);
    } else {
      AlignedWhole(p, s, n, b);
    }
    hide *;
    assert s[n..b][c.answer.count..] == s[n + c.answer.count..b];
  }

  /** What any call does, right or wrong: it returns a line up to a CR LF of the stream, from where one began. */
  lemma AlignedCall(p: State, s: seq<byte>, n: nat, b: nat)
    requires Aligned(p, s, n) && n <= b <= |s|
    ensures var c := ParseLine(p, s[n..b]);
            && (c.answer.NoLine? ==> Aligned(c.next, s, b))
            && (c.answer.Line? ==>
                  var e := n + c.answer.count;
                  && n < e <= b && e >= 2 && CrlfAt(s, e - 2)
                  && c.next.buf == [] && Aligned(c.next, s, e)
                  && s[n..b][c.answer.count..] == s[e..b]
                  && (c.answer.line == [] ==> LineStart(s, e - 2)))
  {
    var c := ParseLine(p, s[n..b]);
    if c.answer.NoLine? {
      AlignedRest(p, s, n, b);
    } else if c.answer.Line? {
      AlignedLine(p, s, n, b);
      AlignedAfresh(s, n + c.answer.count, c.next.sawReturn);
    }
    hide *;
  }

  lemma StaleStep(s: seq<byte>, cuts: set<int>, i: nat)
    requires CrlfAt(s, i)
    ensures Stale(s, cuts, i + 2) <==>
            if i + 1 in cuts then i + 2 !in cuts else (i >= 1 && s[i - 1] == CR) || Stale(s, cuts, i)
  {
  }

  lemma FollowsAfresh(s: seq<byte>, cuts: set<int>, e: nat, saw: bool)
    requires 2 <= e <= |s| && CrlfAt(s, e - 2) && (saw <==> Stale(s, cuts, e))
    ensures Follows(State([], saw), s, cuts, e)
  {
    AlignedAfresh(s, e, saw);
    hide Stale, Aligned;
  }

  /** A CR LF that was cut in two, and is found. */
  lemma RejoinedFollows(p: State, s: seq<byte>, cuts: set<int>, n: nat, b: nat)
    requires Follows(p, s, cuts, n) && Offered(p, s, cuts, n, b)
    requires p.sawReturn && n + 1 < b && s[n] == LF && p.buf != []
    ensures Follows(State([], true), s, cuts, n + 1)
  {
    LastByte(p, s, cuts, n);
    StaleStep(s, cuts, n - 1);
    hide Stale;
    FollowsAfresh(s, cuts, n + 1, true);
  }

  /** A CR LF that came in one piece, at i. */
  lemma WholeFollows(p: State, s: seq<byte>, cuts: set<int>, n: nat, b: nat, i: nat)
    requires Follows(p, s, cuts, n) && Offered(p, s, cuts, n, b) && n <= i && i + 2 <= b
    requires CrlfAt(s, i) && (i >= n + 2 ==> !CrlfAt(s, i - 2)) && !(p.sawReturn && s[n] == LF)
    ensures Follows(State([], if i == n then p.sawReturn else s[i - 1] == CR), s, cuts, i + 2)
  {
    LastByte(p, s, cuts, n);
    StaleStep(s, cuts, i);
    assert i + 1 !in cuts;
    if i == n + 1 {
      assert !CrlfAt(s, i - 2);
    }
    FollowsAfresh(s, cuts, i + 2, if i == n then p.sawReturn else s[i - 1] == CR);
  }

  lemma LineFollows(p: State, s: seq<byte>, cuts: set<int>, n: nat, b: nat)
    requires Follows(p, s, cuts, n) && Offered(p, s, cuts, n, b) && ParseLine(p, s[n..b]).answer.Line?
    ensures var c := ParseLine(p, s[n..b]);
            && 1 <= c.answer.count <= b - n && c.next.buf == []
            && Follows(c.next, s, cuts, n + c.answer.count)
  {
    hide Follows, Stale;
    var data := s[n..b];
    var i := FirstCrlf(data);
    if p.sawReturn && |data| > 1 && data[0] == LF {
      RejoinedFollows(p, s, cuts, n, b);
    } else {
      assert i >= 2 ==> !CrlfAt(data, i - 2);
      WholeFollows(p, s, cuts, n, b, n + i);
    }
    hide *;
  }

  lemma NoneAtEnd(p: State, s: seq<byte>, cuts: set<int>, n: nat, b: nat)
    requires Follows(p, s, cuts, n) && Offered(p, s, cuts, n, b) && ParseLine(p, s[n..b]).answer.NoLine? && n < b
    ensures !Stale(s, cuts, b)
  {
    LastByte(p, s, cuts, n);
    assert b >= n + 2 && CrlfAt(s, b - 2) ==> CrlfAt(s[n..b], b - n - 2);
    hide FirstCrlf;
  }

  lemma RestFollows(p: State, s: seq<byte>, cuts: set<int>, n: nat, b: nat)
    requires Follows(p, s, cuts, n) && Offered(p, s, cuts, n, b) && ParseLine(p, s[n..b]).answer.NoLine?
    ensures Follows(ParseLine(p, s[n..b]).next, s, cuts, b)
  {
    LastByte(p, s, cuts, n);
    AlignedRest(p, s, n, b);
    if n < b {
      NoneAtEnd(p, s, cuts, n, b);
    } else {
      assert p.buf + s[n..b] == p.buf;
    }
    hide FirstCrlf, Stale, Aligned;
  }

  lemma PanicFollows(p: State, s: seq<byte>, cuts: set<int>, n: nat, b: nat)
    requires Follows(p, s, cuts, n) && Offered(p, s, cuts, n, b)
    ensures ParseLine(p, s[n..b]).answer.Panic? <==> n < b && Crashes(s, cuts, n)
  {
    LastByte(p, s, cuts, n);
    hide FirstCrlf, Stale;
  }

  lemma CalmInside(p: State, s: seq<byte>, cuts: set<int>, n: nat, b: nat, e: nat)
    requires Follows(p, s, cuts, n) && Offered(p, s, cuts, n, b) && !(n < b && Crashes(s, cuts, n))
    requires var c := ParseLine(p, s[n..b]);
             e <= b && e == if c.answer.Line? then n + c.answer.count else b
    requires !ParseLine(p, s[n..b]).answer.Panic?
    ensures Calm(s, cuts, n, e)
  {
    LastByte(p, s, cuts, n);
    forall i | n < i < e ensures !Crashes(s, cuts, i) {
      if i >= n + 2 {
        assert CrlfAt(s, i - 2) ==> CrlfAt(s[n..b], i - 2 - n);
      }
    }
    hide FirstCrlf, Stale;
  }

  /** The parser panics at the first byte it is offered, or not at all up to the end of the line it returns, or of
      all it is offered. */
  lemma CallFollows(p: State, s: seq<byte>, cuts: set<int>, n: nat, b: nat)
    requires Follows(p, s, cuts, n) && Offered(p, s, cuts, n, b)
    ensures var c := ParseLine(p, s[n..b]);
            && (c.answer.Panic? <==> n < b && Crashes(s, cuts, n))
            && (c.answer.Line? ==>
                  && 1 <= c.answer.count <= b - n && c.next.buf == []
                  && Follows(c.next, s, cuts, n + c.answer.count)
                  && Calm(s, cuts, n, n + c.answer.count))
            && (c.answer.NoLine? ==> Follows(c.next, s, cuts, b) && Calm(s, cuts, n, b))
  {
    hide *;
    OfferedBounds(p, s, cuts, n, b);
    var c := ParseLine(p, s[n..b]);
    PanicFollows(p, s, cuts, n, b);
    if c.answer.Line? {
      LineFollows(p, s, cuts, n, b);
      CalmInside(p, s, cuts, n, b, n + c.answer.count);
    } else if c.answer.NoLine? {
      RestFollows(p, s, cuts, n, b);
      CalmInside(p, s, cuts, n, b, b);
    }
  }

  lemma NotPanic(p: State, data: seq<byte>)
    requires !Hazard(p, data)
    ensures !ParseLine(p, data).answer.Panic?
  {
  }

  lemma TracksReachable(p: State, s: seq<byte>, cuts: set<int>, n: nat)
    requires Tracks(p, s, cuts, n)
    ensures Reachable(p) && Aligned(p, s, n)
  {
    hide FirstCrlf, Stale;
  }

  lemma RestTracked(p: State, s: seq<byte>, cuts: set<int>, n: nat, b: nat)
    requires Tracks(p, s, cuts, n) && Offered(p, s, cuts, n, b)
    requires !Hazard(p, s[n..b]) && !ParseLine(p, s[n..b]).answer.Line?
    ensures Tracks(ParseLine(p, s[n..b]).next, s, cuts, b)
  {
    TracksReachable(p, s, cuts, n);
    CallAgreesIff(p, s[n..b]);
    NotPanic(p, s[n..b]);
    hide Stale, Aligned, FirstCrlf;
    RestFollows(p, s, cuts, n, b);
  }

  /** A line that is completed leaves the parser at the beginning of the next. */
  lemma LineTracked(p: State, s: seq<byte>, cuts: set<int>, n: nat, b: nat)
    requires Tracks(p, s, cuts, n) && Offered(p, s, cuts, n, b) && ParseLine(p, s[n..b]).answer.Line?
    ensures var c := ParseLine(p, s[n..b]);
            && 1 <= c.answer.count <= b - n && c.next.buf == []
            && CrlfAt(s, n + c.answer.count - 2)
            && Tracks(c.next, s, cuts, n + c.answer.count)
  {
    LineFollows(p, s, cuts, n, b);
    AlignedCall(p, s, n, b);
    hide ParseLine, Stale;
  }

  lemma LineIsSafe(p: State, data: seq<byte>)
    requires ParseLine(p, data).answer.Line?
    ensures !Hazard(p, data)
  {
  }

  lemma FirstAndRest(s: seq<byte>, cuts: set<int>, n: nat, b: nat, e: nat)
    requires Orderly(s, cuts, n + 1, e) && e <= b && !(n < b && Dangerous(s, cuts, n))
    ensures Orderly(s, cuts, n, e)
  {
    hide Dangerous;
  }

  lemma AlignedBounds(p: State, s: seq<byte>, n: nat)
    requires Aligned(p, s, n)
    ensures |p.buf| <= n <= |s|
  {
  }

  lemma ExpectedFirst(buf: seq<byte>, data: seq<byte>)
    requires CrlfFree(buf)
    ensures var a := Expected(buf, data);
            if a.Line? then FirstCrlf(buf + data) == |buf| + a.count - 2 else FirstCrlf(buf + data) == -1
  {
    hide FirstCrlf;
  }

  lemma CrlfWithin(s: seq<byte>, m: nat, b: nat, j: nat)
    requires m <= j && j + 2 <= b <= |s|
    ensures CrlfAt(s[m..b], j - m) <==> CrlfAt(s, j)
  {
    assert s[m..b][j - m] == s[j] && s[m..b][j - m + 1] == s[j + 1];
  }

  lemma NoneBeforeFirst(s: seq<byte>, m: nat, b: nat, e: nat)
    requires m <= b <= |s| && e <= b
    requires var f := FirstCrlf(s[m..b]); e == if f == -1 then b else m + f + 2
    ensures forall j :: m <= j && j + 2 < e ==> !CrlfAt(s, j)
  {
    var f := FirstCrlf(s[m..b]);
    hide FirstCrlf;
    forall j: int | m <= j && j + 2 < e ensures !CrlfAt(s, j) {
      CrlfWithin(s, m, b, j);
    }
  }

  /** No line ends before the one a call returns does, or in all it is offered if it returns none. */
  lemma NoneBefore(p: State, s: seq<byte>, n: nat, b: nat, e: nat)
    requires Aligned(p, s, n) && n <= b <= |s| && Reachable(p) && !Hazard(p, s[n..b])
    requires var c := ParseLine(p, s[n..b]); e == if c.answer.Line? then n + c.answer.count else b
    ensures forall j :: n - |p.buf| <= j && j + 2 < e ==> !CrlfAt(s, j)
  {
    CallAgreesIff(p, s[n..b]);
    ReachableIsFree(p);
    ExpectedFirst(p.buf, s[n..b]);
    Pending(p, s, n, b);
    AlignedBounds(p, s, n);
    hide *;
    NoneBeforeFirst(s, n - |p.buf|, b, e);
  }

  /** In what a call returns or keeps only the first byte can be dangerous. */
  lemma QuietBefore(p: State, s: seq<byte>, cuts: set<int>, n: nat, b: nat, e: nat)
    requires Aligned(p, s, n) && Offered(p, s, cuts, n, b) && Reachable(p) && !Hazard(p, s[n..b])
    requires n <= e <= b && !(n < b && Dangerous(s, cuts, n))
    requires var c := ParseLine(p, s[n..b]); e == if c.answer.Line? then n + c.answer.count else b
    ensures Orderly(s, cuts, n, e)
  {
    hide *;
    OfferedBounds(p, s, cuts, n, b);
    NoneBefore(p, s, n, b, e);
    SafeInside(p, s, cuts, n, b, e);
    FirstAndRest(s, cuts, n, b, e);
  }

  /** One call on the bytes s[n..b]: it is a hazard exactly when the first of them is dangerous; otherwise no
      byte of the line it returns, or of all it was offered, is, and it tracks the stream. */
  lemma CallTracked(p: State, s: seq<byte>, cuts: set<int>, n: nat, b: nat)
    requires Tracks(p, s, cuts, n) && Offered(p, s, cuts, n, b)
    ensures var c := ParseLine(p, s[n..b]);
            && (Hazard(p, s[n..b]) <==> n < b && Dangerous(s, cuts, n))
            && (c.answer.Line? ==>
                  && !Hazard(p, s[n..b])
                  && 1 <= c.answer.count <= b - n && c.next.buf == []
                  && Tracks(c.next, s, cuts, n + c.answer.count)
                  && Orderly(s, cuts, n, n + c.answer.count))
            && (!Hazard(p, s[n..b]) && !c.answer.Line? ==> Tracks(c.next, s, cuts, b) && Orderly(s, cuts, n, b))
  {
    hide *;
    OfferedBounds(p, s, cuts, n, b);
    var data := s[n..b];
    var c := ParseLine(p, data);
    TracksReachable(p, s, cuts, n);
    HazardTracked(p, s, cuts, n, b);
    if c.answer.Line? {
      LineIsSafe(p, data);
      LineTracked(p, s, cuts, n, b);
      QuietBefore(p, s, cuts, n, b, n + c.answer.count);
    } else if !Hazard(p, data) {
      RestTracked(p, s, cuts, n, b);
      QuietBefore(p, s, cuts, n, b, b);
    }
  }

  lemma OrderlySplits(s: seq<byte>, cuts: set<int>, n: nat, k: nat, b: nat)
    requires n <= k <= b
    ensures Orderly(s, cuts, n, b) <==> Orderly(s, cuts, n, k) && Orderly(s, cuts, k, b)
    ensures n < b && Dangerous(s, cuts, n) ==> !Orderly(s, cuts, n, b)
  {
    hide Dangerous;
  }

  lemma StillOffered(p: State, s: seq<byte>, cuts: set<int>, n: nat, b: nat, next: State, k: nat)
    requires Offered(p, s, cuts, n, b) && next.buf == [] && k <= b - n
    ensures Offered(next, s, cuts, n + k, b) && s[n..b][k..] == s[n + k..b]
  {
  }

  lemma {:induction false} DriveTracked(p: State, s: seq<byte>, cuts: set<int>, n: nat, b: nat)
    requires Tracks(p, s, cuts, n) && Offered(p, s, cuts, n, b)
    ensures Smooth(p, s[n..b]) <==> Orderly(s, cuts, n, b)
    ensures Smooth(p, s[n..b]) ==> Tracks(Drive(p, s[n..b]).state, s, cuts, b)
    decreases b - n
  {
    hide *;
    OfferedBounds(p, s, cuts, n, b);
    var c := ParseLine(p, s[n..b]);
    CallTracked(p, s, cuts, n, b);
    DriveStep(p, s[n..b]);
    OrderlySplits(s, cuts, n, n, b);
    if c.answer.Line? {
      var k := c.answer.count;
      StillOffered(p, s, cuts, n, b, c.next, k);
      OrderlySplits(s, cuts, n, n + k, b);
      DriveTracked(c.next, s, cuts, n + k, b);
    }
  }

  lemma {:induction false} CutsBeyond(n: nat, chunks: seq<seq<byte>>)
    ensures n in CutsFrom(n, chunks) && forall j :: j in CutsFrom(n, chunks) ==> j >= n
    decreases |chunks|
  {
    if chunks != [] {
      CutsBeyond(n + |chunks[0]|, chunks[1..]);
    }
  }

  /** chunks are what is left of the stream s behind its first n bytes. */
  ghost predicate Ahead(s: seq<byte>, cuts: set<int>, n: nat, chunks: seq<seq<byte>>) {
    && n <= |s| && s[n..] == Flatten(chunks)
    && forall j :: j >= n ==> (j in cuts <==> j in CutsFrom(n, chunks))
  }

  /** The next chunk lies between two cuts. */
  lemma NextChunk(p: State, s: seq<byte>, cuts: set<int>, n: nat, chunks: seq<seq<byte>>)
    requires Ahead(s, cuts, n, chunks) && chunks != []
    ensures var b := n + |chunks[0]|;
            Offered(p, s, cuts, n, b) && s[n..b] == chunks[0] && Ahead(s, cuts, b, chunks[1..])
  {
    var b := n + |chunks[0]|;
    CutsBeyond(b, chunks[1..]);
    assert s[n..][..|chunks[0]|] == chunks[0] && s[n..][|chunks[0]|..] == Flatten(chunks[1..]);
  }

  lemma AllAhead(chunks: seq<seq<byte>>)
    ensures Ahead(Flatten(chunks), Cuts(chunks), 0, chunks)
    ensures forall saw, cuts: set<int> :: !saw ==> Tracks(State([], saw), Flatten(chunks), cuts, 0)
  {
    hide CutsFrom;
  }

  lemma NothingAhead(s: seq<byte>, cuts: set<int>, n: nat)
    requires Ahead(s, cuts, n, [])
    ensures n == |s|
  {
    assert |s[n..]| == 0;
  }

  lemma {:induction false} AllTracked(p: State, s: seq<byte>, cuts: set<int>, n: nat, chunks: seq<seq<byte>>)
    requires Tracks(p, s, cuts, n) && Ahead(s, cuts, n, chunks)
    ensures SmoothAll(p, chunks) <==> Orderly(s, cuts, n, |s|)
    decreases |chunks|
  {
    hide Tracks, Ahead, Drive, Smooth, Dangerous, Offered, CutsFrom;
    if chunks == [] {
      NothingAhead(s, cuts, n);
    } else {
      var b := n + |chunks[0]|;
      NextChunk(p, s, cuts, n, chunks);
      OfferedBounds(p, s, cuts, n, b);
      DriveTracked(p, s, cuts, n, b);
      OrderlySplits(s, cuts, n, b, |s|);
      if Smooth(p, chunks[0]) {
        AllTracked(Drive(p, chunks[0]).state, s, cuts, b, chunks[1..]);
      }
    }
  }

  /** The hazards of a run are the dangerous bytes of its stream, given its cuts. */
  lemma SmoothIffOrderly(chunks: seq<seq<byte>>)
    ensures var s := Flatten(chunks); SmoothAll(FRESH, chunks) <==> Orderly(s, Cuts(chunks), 0, |s|)
  {
    AllAhead(chunks);
    AllTracked(FRESH, Flatten(chunks), Cuts(chunks), 0, chunks);
  }

  /** Chunking independence, and exactly where it ends: for every chunking of every stream, driving the parser
      gives the lines of splitting the whole stream at CR LF, with the bytes behind the last CR LF left in `buf`, if and
      only if, given the cuts, no byte of the stream is dangerous. */
  lemma RunAgreesIff(chunks: seq<seq<byte>>)
    ensures var s := Flatten(chunks);
            Right(DriveAll(FRESH, chunks), s) <==> Orderly(s, Cuts(chunks), 0, |s|)
  {
    SmoothIffRight(chunks);
    SmoothIffOrderly(chunks);
  }

  /** Any lines without CR LF - also lines that end in CR or begin with LF - and any unfinished line, joined,
      cut up in any way and parsed, come back unchanged, if and only if no byte is dangerous. */
  lemma JoinedLinesComeBackIff(lines: seq<seq<byte>>, rest: seq<byte>, chunks: seq<seq<byte>>)
    requires CrlfFree(rest) && forall l :: l in lines ==> CrlfFree(l)
    requires Flatten(chunks) == Join(lines, rest)
    ensures var d := DriveAll(FRESH, chunks);
            var s := Join(lines, rest);
            !d.panicked && d.lines == lines && d.state.buf == rest <==> Orderly(s, Cuts(chunks), 0, |s|)
  {
    SplitJoin(lines, rest);
    RunAgreesIff(chunks);
    hide DriveAll, Split, Join, Orderly, Cuts;
  }

  lemma SplitOneLine(l: seq<byte>)
    requires CrlfFree(l)
    ensures Split(l + CRLF) == Lines([l], [])
  {
    SplitJoin([l], []);
    assert Join([], []) == [] && [l][1..] == [] && l + CRLF + [] == l + CRLF;
  }

  /** "a" CR, then LF alone: the line is missed. */
  lemma MissedLine()
    ensures DriveAll(FRESH, [[97, 13], [10]]) == Driven([], State([97, 13, 10], false), false)
    ensures Split(Flatten([[97, 13], [10]])) == Lines([[97]], [])
  {
    var chunks := [[97, CR], [LF]];
    assert chunks[1..] == [[LF]] && [[LF]][1..] == [];
    assert [] + [97, CR] == [97, CR] && [97, CR] + [LF] == [97, CR, LF];
    assert Drive(FRESH, [97, CR]) == Driven([], State([97, CR], true), false);
    assert Drive(State([97, CR], true), [LF]) == Driven([], State([97, CR, LF], false), false);
    assert DriveAll(State([97, CR], true), [[LF]]) == Driven([], State([97, CR, LF], false), false);
    assert Flatten([[LF]]) == [LF] && Flatten(chunks) == [97] + CRLF;
    SplitOneLine([97]);
  }

  /** "a" CR, then LF LF "b": the line comes out, and the stale flag panics on the next. */
  lemma StaleFlagPanics()
    ensures DriveAll(FRESH, [[97, CR], [LF, LF, 98]]) == Driven([[97]], State([], true), true)
  {
    var chunks := [[97, CR], [LF, LF, 98]];
    assert chunks[1..] == [[LF, LF, 98]];
    assert [] + [97, CR] == [97, CR];
    assert Drive(FRESH, [97, CR]) == Driven([], State([97, CR], true), false);
    assert [97, CR][..1] == [97];
    assert ParseLine(State([97, CR], true), [LF, LF, 98]) == Called(Line([97], 1), State([], true));
    assert [LF, LF, 98][1..] == [LF, 98];
    assert Drive(State([], true), [LF, 98]) == Driven([], State([], true), true);
  }

  // -- When the parser panics ------------------------------------------------------------------

  lemma CalmSplits(s: seq<byte>, cuts: set<int>, n: nat, k: nat, b: nat)
    requires n <= k <= b
    ensures Calm(s, cuts, n, b) <==> Calm(s, cuts, n, k) && Calm(s, cuts, k, b)
    ensures n < b && Crashes(s, cuts, n) ==> !Calm(s, cuts, n, b)
  {
    hide Crashes;
  }

  lemma {:induction false} DriveFollows(p: State, s: seq<byte>, cuts: set<int>, n: nat, b: nat)
    requires Follows(p, s, cuts, n) && Offered(p, s, cuts, n, b)
    ensures Drive(p, s[n..b]).panicked <==> !Calm(s, cuts, n, b)
    ensures !Drive(p, s[n..b]).panicked ==> Follows(Drive(p, s[n..b]).state, s, cuts, b)
    decreases b - n
  {
    hide *;
    OfferedBounds(p, s, cuts, n, b);
    var c := ParseLine(p, s[n..b]);
    CallFollows(p, s, cuts, n, b);
    DriveStep(p, s[n..b]);
    CalmSplits(s, cuts, n, n, b);
    if c.answer.Line? {
      var k := c.answer.count;
      StillOffered(p, s, cuts, n, b, c.next, k);
      CalmSplits(s, cuts, n, n + k, b);
      DriveFollows(c.next, s, cuts, n + k, b);
    }
  }

  lemma {:induction false} AllFollow(p: State, s: seq<byte>, cuts: set<int>, n: nat, chunks: seq<seq<byte>>)
    requires Follows(p, s, cuts, n) && Ahead(s, cuts, n, chunks)
    ensures DriveAll(p, chunks).panicked <==> !Calm(s, cuts, n, |s|)
    decreases |chunks|
  {
    hide Follows, Ahead, Drive, Crashes, Offered, CutsFrom;
    if chunks == [] {
      NothingAhead(s, cuts, n);
    } else {
      var b := n + |chunks[0]|;
      NextChunk(p, s, cuts, n, chunks);
      OfferedBounds(p, s, cuts, n, b);
      DriveFollows(p, s, cuts, n, b);
      CalmSplits(s, cuts, n, b, |s|);
      if !Drive(p, chunks[0]).panicked {
        AllFollow(Drive(p, chunks[0]).state, s, cuts, b, chunks[1..]);
      }
    }
  }

  lemma CrashesWithin(s: seq<byte>, cuts: set<int>)
    ensures !Calm(s, cuts, 0, |s|) <==> exists i :: Crashes(s, cuts, i)
  {
    assert forall i :: Crashes(s, cuts, i) ==> 0 <= i < |s|;
    hide Crashes;
  }

  /** For every chunking of every stream: the parser panics if and only if some line that begins stale, given the
      cuts, begins with an LF whose chunk goes on. */
  lemma PanicsIff(chunks: seq<seq<byte>>)
    ensures DriveAll(FRESH, chunks).panicked <==> exists i :: Crashes(Flatten(chunks), Cuts(chunks), i)
  {
    var s, cuts := Flatten(chunks), Cuts(chunks);
    AllAhead(chunks);
    hide Crashes, Ahead, DriveAll, Flatten, Cuts;
    AllFollow(FRESH, s, cuts, 0, chunks);
    CrashesWithin(s, cuts);
  }

  // -- No byte is lost -------------------------------------------------------------------------

  /** `saw_return` says whether an unfinished line ends in CR, even if there are CR LFs in it. */
  predicate KnowsEnd(p: State) { p.buf != [] ==> (p.sawReturn <==> EndsInCr(p.buf)) }

  lemma CallKeeps(p: State, data: seq<byte>)
    requires KnowsEnd(p)
    ensures var c := ParseLine(p, data);
            && (c.answer.Panic? ==> p.buf == [] && c.next.buf == [] && data != [])
            && (c.answer.NoLine? ==> c.next.buf == p.buf + data && KnowsEnd(c.next))
            && (c.answer.Line? ==>
                  && c.answer.count <= |data| && c.next.buf == []
                  && c.answer.line + CRLF == p.buf + data[..c.answer.count])
  {
    SawIsEndsInCr(p, data);
    hide FirstCrlf;
    var i := FirstCrlf(data);
    if i != -1 {
      CutAtCrlf(data, i);
    }
  }

  /** What has come out and what is kept are the bytes taken in; all of them, unless the parser panics. */
  predicate Rejoins(d: Driven, taken: seq<byte>) {
    var all := Join(d.lines, d.state.buf);
    all <= taken && (all == taken <==> !d.panicked)
  }

  lemma EmptyKnows(p: State)
    requires p.buf == []
    ensures KnowsEnd(p)
  {
  }

  lemma OneLineMore(d: Driven, e: Driven, line: seq<byte>, data: seq<byte>)
    requires Rejoins(e, data) && d == Driven([line] + e.lines, e.state, e.panicked)
    ensures Rejoins(d, line + CRLF + data)
  {
    JoinCons(line, e.lines, e.state.buf);
    hide Join;
  }

  lemma NoLineMore(d: Driven, buf: seq<byte>, data: seq<byte>)
    requires d.lines == [] && d.state.buf == (if d.panicked then [] else buf + data) && (d.panicked ==> data != [])
    ensures Rejoins(d, buf + data)
  {
  }

  lemma {:induction false} DriveRejoins(p: State, data: seq<byte>)
    requires KnowsEnd(p)
    ensures Rejoins(Drive(p, data), p.buf + data)
    ensures !Drive(p, data).panicked ==> KnowsEnd(Drive(p, data).state)
    decreases |data|
  {
    hide *;
    CallKeeps(p, data);
    DriveStep(p, data);
    var c := ParseLine(p, data);
    var d := Drive(p, data);
    if c.answer.Line? {
      var k := c.answer.count;
      EmptyKnows(c.next);
      DriveRejoins(c.next, data[k..]);
      var e := Drive(c.next, data[k..]);
      JoinCons(c.answer.line, e.lines, e.state.buf);
      assert p.buf + data == p.buf + data[..k] + data[k..];
      assert [] + data[k..] == data[k..];
      OneLineMore(d, e, c.answer.line, data[k..]);
    } else {
      NoLineMore(d, p.buf, data);
    }
  }

  lemma MoreRejoins(d: Driven, e: Driven, taken: seq<byte>, rest: seq<byte>)
    requires !d.panicked && Rejoins(d, taken) && Rejoins(e, d.state.buf + rest)
    ensures Rejoins(Driven(d.lines + e.lines, e.state, e.panicked), taken + rest)
  {
    JoinFurther(d.lines, e.lines, e.state.buf);
    JoinAppends(d.lines, d.state.buf, rest);
    var all := Join(e.lines, e.state.buf);
    var lost := (d.state.buf + rest)[|all|..];
    assert all + lost == d.state.buf + rest;
    JoinAppends(d.lines, all, lost);
    hide Join;
  }

  lemma {:induction false} AllRejoin(p: State, chunks: seq<seq<byte>>)
    requires KnowsEnd(p)
    ensures Rejoins(DriveAll(p, chunks), p.buf + Flatten(chunks))
    decreases |chunks|
  {
    hide Drive, Join, KnowsEnd;
    if chunks == [] {
      NoLineMore(Driven([], p, false), p.buf, []);
    } else {
      var d := Drive(p, chunks[0]);
      var rest := Flatten(chunks[1..]);
      DriveRejoins(p, chunks[0]);
      assert p.buf + (chunks[0] + rest) == p.buf + chunks[0] + rest;
      if !d.panicked {
        var e := DriveAll(d.state, chunks[1..]);
        AllRejoin(d.state, chunks[1..]);
        MoreRejoins(d, e, p.buf + chunks[0], rest);
      }
    }
  }

  /** Returned lines, each followed by CR LF, and then `buf` are a prefix of the stream in every run, and the whole
      stream - also when CR LFs were missed - if and only if the parser does not panic, which the stream and its
      cuts decide. */
  lemma RejoinIff(chunks: seq<seq<byte>>)
    ensures var d := DriveAll(FRESH, chunks);
            && Join(d.lines, d.state.buf) <= Flatten(chunks)
            && (Join(d.lines, d.state.buf) == Flatten(chunks) <==> !d.panicked)
            && (Join(d.lines, d.state.buf) == Flatten(chunks)
                <==> forall i :: !Crashes(Flatten(chunks), Cuts(chunks), i))
  {
    AllRejoin(FRESH, chunks);
    PanicsIff(chunks);
    hide DriveAll, Join, Crashes, Cuts;
    assert [] + Flatten(chunks) == Flatten(chunks);
  }
}
