/** UTF-8 (RFC 3629), by what it encodes: the bytes `str::from_utf8` accepts are the encodings of sequences of
    Unicode scalar values. */
module Utf8Encoding {
  import opened Bytes

  /** A Unicode scalar value: a code point that is not a surrogate. */
  type Scalar = c: int | 0 <= c <= 0x10FFFF && !(0xD800 <= c <= 0xDFFF)

  /** Section 3 of RFC 3629: six bits of the scalar value in every byte but the first. */
  function EncodeScalar(c: Scalar): seq<byte> {
    if c <= 0x7F then [c]
    else if c <= 0x7FF then [0xC0 + c / 64, 0x80 + c % 64]
    else if c <= 0xFFFF then [0xE0 + c / 4096, 0x80 + c / 64 % 64, 0x80 + c % 64]
    else [0xF0 + c / 262144, 0x80 + c / 4096 % 64, 0x80 + c / 64 % 64, 0x80 + c % 64]
  }

  function EncodeScalars(cs: seq<Scalar>): seq<byte> {
    if cs == [] then [] else EncodeScalar(cs[0]) + EncodeScalars(cs[1..])
  }

  lemma FrontBytes(e: seq<byte>, rest: seq<byte>)
    ensures |e + rest| >= |e| && forall i :: 0 <= i < |e| ==> (e + rest)[i] == e[i]
  {
  }

  lemma CharFoundShort(c: Scalar, s: seq<byte>)
    requires c <= 0x7FF
    requires var e := EncodeScalar(c); |s| >= |e| && forall i :: 0 <= i < |e| ==> s[i] == e[i]
    ensures CharLength(s) == |EncodeScalar(c)|
  {
    assert s[0] == EncodeScalar(c)[0];
    if c > 0x7F {
      assert s[1] == EncodeScalar(c)[1];
    }
  }

  lemma CharFoundLong(c: Scalar, s: seq<byte>)
    requires c > 0x7FF
    requires var e := EncodeScalar(c); |s| >= |e| && forall i :: 0 <= i < |e| ==> s[i] == e[i]
    ensures CharLength(s) == |EncodeScalar(c)|
  {
    var e := EncodeScalar(c);
    assert s[0] == e[0] && s[1] == e[1] && s[2] == e[2];
    if c > 0xFFFF {
      assert s[3] == e[3];
    }
  }

  lemma CharFound(c: Scalar, s: seq<byte>)
    requires var e := EncodeScalar(c); |s| >= |e| && forall i :: 0 <= i < |e| ==> s[i] == e[i]
    ensures CharLength(s) == |EncodeScalar(c)|
  {
    if c <= 0x7FF {
      CharFoundShort(c, s);
    } else {
      CharFoundLong(c, s);
    }
    hide *;
  }

  /** The first character of encoded text is the first scalar value, whatever follows. */
  lemma CharOfScalar(c: Scalar, rest: seq<byte>)
    ensures CharLength(EncodeScalar(c) + rest) == |EncodeScalar(c)|
  {
    var e := EncodeScalar(c);
    FrontBytes(e, rest);
    CharFound(c, e + rest);
    hide *;
  }

  lemma TwoDigits(a: nat, b: nat)
    requires b < 64
    ensures (a * 64 + b) / 64 == a && (a * 64 + b) % 64 == b
  {
  }

  lemma ThreeDigits(a: nat, b: nat, d: nat)
    requires b < 64 && d < 64
    ensures var c := a * 4096 + b * 64 + d; c / 4096 == a && c / 64 % 64 == b && c % 64 == d
  {
    TwoDigits(a * 64 + b, d);
    TwoDigits(a, b);
  }

  lemma FourDigits(a: nat, b: nat, d: nat, e: nat)
    requires b < 64 && d < 64 && e < 64
    ensures var c := a * 262144 + b * 4096 + d * 64 + e;
            c / 262144 == a && c / 4096 % 64 == b && c / 64 % 64 == d && c % 64 == e
  {
    TwoDigits(a * 4096 + b * 64 + d, e);
    ThreeDigits(a, b, d);
  }

  lemma ShortChar(s: seq<byte>) returns (c: Scalar)
    requires s != [] && 0 < CharLength(s) <= 2
    ensures EncodeScalar(c) == s[..CharLength(s)]
  {
    var b0: int := s[0];
    if CharLength(s) == 1 {
      return b0;
    }
    var b1: int := s[1];
    TwoDigits(b0 - 0xC0, b1 - 0x80);
    return (b0 - 0xC0) * 64 + (b1 - 0x80);
  }

  lemma ThreeByteChar(s: seq<byte>) returns (c: Scalar)
    requires s != [] && CharLength(s) == 3
    ensures EncodeScalar(c) == s[..3]
  {
    var b0: int, b1: int, b2: int := s[0], s[1], s[2];
    ThreeDigits(b0 - 0xE0, b1 - 0x80, b2 - 0x80);
    return (b0 - 0xE0) * 4096 + (b1 - 0x80) * 64 + (b2 - 0x80);
  }

  lemma FourByteChar(s: seq<byte>) returns (c: Scalar)
    requires s != [] && CharLength(s) == 4
    ensures EncodeScalar(c) == s[..4]
  {
    var b0: int, b1: int, b2: int, b3: int := s[0], s[1], s[2], s[3];
    FourDigits(b0 - 0xF0, b1 - 0x80, b2 - 0x80, b3 - 0x80);
    return (b0 - 0xF0) * 262144 + (b1 - 0x80) * 4096 + (b2 - 0x80) * 64 + (b3 - 0x80);
  }

  lemma AtMostFour(s: seq<byte>)
    requires s != []
    ensures CharLength(s) <= 4
  {
  }

  /** Every character that is found is the encoding of a scalar value. */
  lemma ScalarOfChar(s: seq<byte>) returns (c: Scalar)
    requires s != [] && CharLength(s) > 0
    ensures EncodeScalar(c) == s[..CharLength(s)]
  {
    AtMostFour(s);
    hide *;
    if CharLength(s) <= 2 {
      c := ShortChar(s);
    } else if CharLength(s) == 3 {
      c := ThreeByteChar(s);
    } else {
      c := FourByteChar(s);
    }
  }

  lemma {:induction false} EncodedIsValid(cs: seq<Scalar>)
    ensures ValidUtf8(EncodeScalars(cs))
    decreases |cs|
  {
    if cs != [] {
      var rest := EncodeScalars(cs[1..]);
      CharOfScalar(cs[0], rest);
      EncodedIsValid(cs[1..]);
      assert (EncodeScalar(cs[0]) + rest)[|EncodeScalar(cs[0])|..] == rest;
      hide CharLength;
    }
  }

  lemma {:induction false} ValidIsEncoded(s: seq<byte>) returns (cs: seq<Scalar>)
    requires ValidUtf8(s)
    ensures EncodeScalars(cs) == s
    decreases |s|
  {
    hide CharLength;
    cs := [];
    if s != [] {
      var c := ScalarOfChar(s);
      var rest := ValidIsEncoded(s[CharLength(s)..]);
      cs := [c] + rest;
      assert cs[1..] == rest;
      assert s == s[..CharLength(s)] + s[CharLength(s)..];
    }
  }

  /** Bytes are valid UTF-8 if and only if they encode some sequence of Unicode scalar values. */
  lemma ValidIff(s: seq<byte>)
    ensures ValidUtf8(s) <==> exists cs :: EncodeScalars(cs) == s
  {
    if ValidUtf8(s) {
      var cs := ValidIsEncoded(s);
    }
    forall cs | EncodeScalars(cs) == s ensures ValidUtf8(s) {
      EncodedIsValid(cs);
    }
    hide ValidUtf8;
  }

  /** ASCII is UTF-8. */
  lemma {:induction false} AsciiIsValid(s: seq<byte>)
    requires forall i :: 0 <= i < |s| ==> s[i] < 0x80
    ensures ValidUtf8(s)
    decreases |s|
  {
    if s != [] {
      AsciiIsValid(s[1..]);
    }
  }
}
