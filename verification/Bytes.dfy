/** Machine bytes and words, and the byte-level helpers every other module uses. */
module Bytes {
  type byte = x: int | 0 <= x < 0x100
  type u16 = x: int | 0 <= x < 0x1_0000

  /** `(w >> 8) as u8` */
  function High(w: u16): byte { w / 0x100 }

  /** `w as u8`, which keeps the low eight bits. */
  function Low(w: u16): byte { w % 0x100 }

  /** Bitwise `|` */
  function Or(a: nat, b: nat): nat
    decreases a
  {
    if a == 0 then b else (if a % 2 == 1 || b % 2 == 1 then 1 else 0) + 2 * Or(a / 2, b / 2)
  }

  function Pow2(k: nat): (n: nat)
    ensures n > 0
  {
    if k == 0 then 1 else 2 * Pow2(k - 1)
  }

  lemma {:induction false} OrZero(a: nat)
    ensures Or(a, 0) == a
  {
    if a > 0 {
      OrZero(a / 2);
    }
  }

  /** Operands without a bit in common: `|` adds. */
  lemma {:induction false} OrAdds(a: nat, b: nat, k: nat)
    requires b < Pow2(k)
    ensures Or(a * Pow2(k), b) == a * Pow2(k) + b
    decreases k
  {
    if k > 0 && a > 0 {
      var p := Pow2(k - 1);
      assert a * Pow2(k) == 2 * (a * p);
      OrAdds(a, b / 2, k - 1);
    } else if k == 0 {
      OrZero(a);
    }
  }

  /** `((hi as u16) << 8) | (lo as u16)` */
  function Word(hi: byte, lo: byte): (w: u16)
    ensures w == hi * 0x100 + lo
  {
    assert Pow2(8) == 0x100;
    OrAdds(hi, lo, 8);
    Or(hi * Pow2(8), lo)
  }

  /** At most the first n elements. */
  function Take<T>(s: seq<T>, n: nat): (r: seq<T>)
    ensures r <= s && |r| == if n < |s| then n else |s|
  {
    if n < |s| then s[..n] else s
  }

  function Flatten(chunks: seq<seq<byte>>): seq<byte> {
    if chunks == [] then [] else chunks[0] + Flatten(chunks[1..])
  }

  lemma {:induction false} FlattenConcat(a: seq<seq<byte>>, b: seq<seq<byte>>)
    ensures Flatten(a + b) == Flatten(a) + Flatten(b)
  {
    if a == [] {
      assert a + b == b;
    } else {
      FlattenConcat(a[1..], b);
      assert (a + b)[1..] == a[1..] + b;
      assert a[0] + (Flatten(a[1..]) + Flatten(b)) == (a[0] + Flatten(a[1..])) + Flatten(b);
    }
  }

  predicate Continuation(b: byte) { 0x80 <= b <= 0xBF }

  /** Length of the well-formed UTF-8 sequence at the front of s, or 0 when there is none. */
  function CharLength(s: seq<byte>): (n: nat)
    requires s != []
    ensures n <= |s|
  {
    var b := s[0];
    if b < 0x80 then 1
    else if |s| < 2 then 0
    else if 0xC2 <= b <= 0xDF then (if Continuation(s[1]) then 2 else 0)
    else if |s| < 3 || !Continuation(s[1]) || !Continuation(s[2]) then 0
    else if 0xE0 <= b <= 0xEF then
      if (b == 0xE0 && s[1] < 0xA0) || (b == 0xED && s[1] > 0x9F) then 0 else 3
    else if |s| < 4 || !Continuation(s[3]) then 0
    else if 0xF0 <= b <= 0xF4 then
      if (b == 0xF0 && s[1] < 0x90) || (b == 0xF4 && s[1] > 0x8F) then 0 else 4
    else 0
  }

  /** What `std::str::from_utf8` accepts. */
  predicate ValidUtf8(s: seq<byte>) {
    s == [] || (CharLength(s) > 0 && ValidUtf8(s[CharLength(s)..]))
  }

  /** The bytes of a Rust `String`. */
  type Utf8 = s: seq<byte> | ValidUtf8(s)
}
