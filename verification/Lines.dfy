/** Lines of a byte stream, each ended by CR LF (section 2.1 of RFC 9112): the reference the incremental
    parser is compared with. */
module Lines {
  import opened Bytes

  const CR: byte := 13
  const LF: byte := 10
  const CRLF: seq<byte> := [CR, LF]

  predicate CrlfAt(s: seq<byte>, i: int) {
    0 <= i < |s| - 1 && s[i] == CR && s[i + 1] == LF
  }

  predicate EndsInCr(s: seq<byte>) { s != [] && s[|s| - 1] == CR }

  /** A line begins at i. */
  predicate LineStart(s: seq<byte>, i: int) { i == 0 || CrlfAt(s, i - 2) }

  predicate AtLineEnd(s: seq<byte>) { LineStart(s, |s|) }

  /** Index of the first CR LF, or -1. */
  function FirstCrlf(s: seq<byte>): (r: int)
    ensures r == -1 || (0 <= r && r + 2 <= |s| && CrlfAt(s, r))
    ensures forall i :: CrlfAt(s, i) ==> 0 <= r <= i
  {
    if |s| < 2 then -1
    else if s[0] == CR && s[1] == LF then 0
    else
      var r := FirstCrlf(s[1..]);
      assert forall i :: CrlfAt(s, i) && i > 0 ==> CrlfAt(s[1..], i - 1);
      if r == -1 then -1 else r + 1
  }

  predicate CrlfFree(s: seq<byte>) { FirstCrlf(s) == -1 }

  datatype Lines = Lines(lines: seq<seq<byte>>, rest: seq<byte>)

  lemma FreeBefore(s: seq<byte>, i: int)
    requires CrlfAt(s, i) && FirstCrlf(s) == i
    ensures CrlfFree(s[..i])
  {
    var f := FirstCrlf(s[..i]);
    assert f != -1 ==> CrlfAt(s, f);
  }

  /** The complete lines of s, and what follows the last CR LF. */
  function Split(s: seq<byte>): (r: Lines)
    ensures CrlfFree(r.rest)
    ensures forall l :: l in r.lines ==> CrlfFree(l)
    decreases |s|
  {
    var i := FirstCrlf(s);
    if i == -1 then Lines([], s)
    else
      FreeBefore(s, i);
      var r := Split(s[i + 2..]);
      Lines([s[..i]] + r.lines, r.rest)
  }

  function Join(lines: seq<seq<byte>>, rest: seq<byte>): seq<byte> {
    if lines == [] then rest else lines[0] + CRLF + Join(lines[1..], rest)
  }

  /** The first CR LF is where it is said to be first. */
  lemma FirstIs(s: seq<byte>, i: int)
    requires CrlfAt(s, i) && forall j :: CrlfAt(s, j) ==> i <= j
    ensures FirstCrlf(s) == i
  {
  }

  /** Appending bytes does not move the first CR LF. */
  lemma FirstOfPrefix(a: seq<byte>, b: seq<byte>)
    requires FirstCrlf(a) != -1
    ensures FirstCrlf(a + b) == FirstCrlf(a)
  {
    var i := FirstCrlf(a);
    forall j | CrlfAt(a + b, j) ensures i <= j {
      if j < i {
        assert CrlfAt(a, j);
      }
    }
    FirstIs(a + b, i);
  }

  /** A line without CR LF, whatever it ends in, ends at the CR LF that follows it. */
  lemma FirstAfterLine(l: seq<byte>, s: seq<byte>)
    requires CrlfFree(l)
    ensures FirstCrlf(l + CRLF + s) == |l|
  {
    var t := l + CRLF + s;
    forall j | CrlfAt(t, j) ensures |l| <= j {
      if j < |l| {
        assert j + 1 < |l| ==> CrlfAt(l, j);
      }
    }
    assert CrlfAt(t, |l|);
    FirstIs(t, |l|);
  }

  lemma SplitStep(s: seq<byte>)
    ensures var i := FirstCrlf(s);
            if i == -1 then Split(s) == Lines([], s)
            else Split(s) == Lines([s[..i]] + Split(s[i + 2..]).lines, Split(s[i + 2..]).rest)
  {
    hide FirstCrlf;
  }

  /** Splitting the front first and carrying the unfinished line over loses nothing. */
  lemma {:induction false} SplitConcat(a: seq<byte>, b: seq<byte>)
    ensures Split(a + b).lines == Split(a).lines + Split(Split(a).rest + b).lines
    ensures Split(a + b).rest == Split(Split(a).rest + b).rest
    decreases |a|
  {
    SplitStep(a);
    hide *;
    var i := FirstCrlf(a);
    if i != -1 {
      var c := a[i + 2..];
      FirstOfPrefix(a, b);
      assert (a + b)[..i] == a[..i] && (a + b)[i + 2..] == c + b;
      SplitStep(a + b);
      SplitConcat(c, b);
      assert [a[..i]] + (Split(c).lines + Split(Split(c).rest + b).lines)
          == [a[..i]] + Split(c).lines + Split(Split(c).rest + b).lines;
    }
  }

  lemma JoinCons(line: seq<byte>, lines: seq<seq<byte>>, rest: seq<byte>)
    ensures Join([line] + lines, rest) == line + CRLF + Join(lines, rest)
  {
    assert ([line] + lines)[1..] == lines;
  }

  lemma CutAtCrlf(s: seq<byte>, i: int)
    requires 0 <= i && i + 2 <= |s| && CrlfAt(s, i)
    ensures s == s[..i] + CRLF + s[i + 2..]
  {
  }

  lemma {:induction false} JoinFurther(a: seq<seq<byte>>, b: seq<seq<byte>>, rest: seq<byte>)
    ensures Join(a + b, rest) == Join(a, Join(b, rest))
    decreases |a|
  {
    if a == [] {
      assert a + b == b;
    } else {
      JoinFurther(a[1..], b, rest);
      assert (a + b)[1..] == a[1..] + b;
    }
  }

  lemma {:induction false} JoinAppends(lines: seq<seq<byte>>, a: seq<byte>, b: seq<byte>)
    ensures Join(lines, a + b) == Join(lines, a) + b
    decreases |lines|
  {
    if lines != [] {
      JoinAppends(lines[1..], a, b);
      var l := lines[0] + CRLF;
      assert l + (Join(lines[1..], a) + b) == l + Join(lines[1..], a) + b;
    }
  }

  /** Rejoining what was split gives back the stream. */
  lemma {:induction false} JoinSplit(s: seq<byte>)
    ensures Join(Split(s).lines, Split(s).rest) == s
    decreases |s|
  {
    SplitStep(s);
    var i := FirstCrlf(s);
    if i == -1 {
      assert Join([], s) == s;
    }
    hide *;
    if i != -1 {
      JoinSplit(s[i + 2..]);
      JoinCons(s[..i], Split(s[i + 2..]).lines, Split(s[i + 2..]).rest);
      CutAtCrlf(s, i);
    }
  }

  /** Splitting what was joined gives back the lines - also those that end in CR or begin with LF. */
  lemma {:induction false} SplitJoin(lines: seq<seq<byte>>, rest: seq<byte>)
    requires CrlfFree(rest) && forall l :: l in lines ==> CrlfFree(l)
    ensures Split(Join(lines, rest)) == Lines(lines, rest)
    decreases |lines|
  {
    if lines != [] {
      var line := lines[0];
      var tail := Join(lines[1..], rest);
      FirstAfterLine(line, tail);
      var s := line + CRLF + tail;
      assert s[..|line|] == line && s[|line| + 2..] == tail;
      SplitJoin(lines[1..], rest);
      SplitStep(s);
    }
  }

  /** In bytes: a line is free of CR LF if it has no 13 with a 10 behind it. */
  lemma FreeIff(s: seq<byte>)
    ensures CrlfFree(s) <==> forall i :: 0 <= i < |s| - 1 ==> !(s[i] == 13 && s[i + 1] == 10)
  {
    hide FirstCrlf;
    forall i | 0 <= i < |s| - 1 && s[i] == 13 && s[i + 1] == 10 ensures !CrlfFree(s) {
      assert CrlfAt(s, i);
    }
  }

  /** And each line is joined to what follows with 13, 10. */
  lemma JoinBytes(line: seq<byte>, lines: seq<seq<byte>>, rest: seq<byte>)
    ensures Join([], rest) == rest && Join([line] + lines, rest) == line + [13, 10] + Join(lines, rest)
  {
    JoinCons(line, lines, rest);
  }

  /** Splitting is the only way to take a stream apart into lines free of CR LF. */
  lemma SplitIff(s: seq<byte>, lines: seq<seq<byte>>, rest: seq<byte>)
    ensures Split(s) == Lines(lines, rest)
            <==> s == Join(lines, rest) && CrlfFree(rest) && forall l :: l in lines ==> CrlfFree(l)
  {
    JoinSplit(s);
    if s == Join(lines, rest) && CrlfFree(rest) && forall l :: l in lines ==> CrlfFree(l) {
      SplitJoin(lines, rest);
    }
    hide Join, CrlfFree;
  }

  // -- Where a stream ends its last line --------------------------------------------------------

  lemma LineEndOfTail(a: seq<byte>)
    requires AtLineEnd(a) && a != []
    ensures FirstCrlf(a) != -1 && AtLineEnd(a[FirstCrlf(a) + 2..])
  {
    var i := FirstCrlf(a);
    if i != |a| - 2 {
      assert i + 2 <= |a| - 2 by { assert CrlfAt(a, i) && CrlfAt(a, |a| - 2); }
      assert CrlfAt(a[i + 2..], |a| - 2 - i - 2);
    }
  }

  lemma OpenEnd(s: seq<byte>)
    requires FirstCrlf(s) == -1
    ensures AtLineEnd(s) <==> s == []
  {
  }

  lemma LineEndShifts(s: seq<byte>)
    requires FirstCrlf(s) != -1
    ensures AtLineEnd(s) <==> AtLineEnd(s[FirstCrlf(s) + 2..])
  {
    var i := FirstCrlf(s);
    if AtLineEnd(s) {
      LineEndOfTail(s);
    }
  }

  lemma {:induction false} LineEndIff(s: seq<byte>)
    ensures AtLineEnd(s) <==> Split(s).rest == []
    decreases |s|
  {
    hide *;
    SplitStep(s);
    var i := FirstCrlf(s);
    if i == -1 {
      OpenEnd(s);
    } else {
      LineEndIff(s[i + 2..]);
      LineEndShifts(s);
    }
  }
}
