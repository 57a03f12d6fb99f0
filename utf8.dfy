/** UTF-8 as the terminal uses it (RFC 3629): `str.encode("utf-8")` for
    outgoing shell lines and escape decoding, and
    `bytes.decode("utf-8", errors="replace")` for incoming lines. The
    decoder replaces each maximal ill-formed subpart with one U+FFFD,
    which is what CPython does. */
module Utf8 {
  import opened Text

  const Replacement: int := 0xFFFD

  /** A Unicode scalar value (what a Dafny `char` holds). */
  predicate IsScalar(n: int) {
    0 <= n < 0xD800 || 0xE000 <= n < 0x110000
  }

  predicate IsCont(b: Byte) {
    0x80 <= b <= 0xBF
  }

  /** The UTF-8 form of one character. */
  function EncodeChar(c: char): (b: seq<Byte>)
    ensures 1 <= |b| <= 4
    ensures |b| == 1 <==> c as int < 0x80
    ensures |b| == 1 ==> b[0] == c as int
    ensures forall i | 1 <= i < |b| :: IsCont(b[i])
  {
    var n := c as int;
    if n < 0x80 then [n]
    else if n < 0x800 then [0xC0 + n / 64, 0x80 + n % 64]
    else if n < 0x10000 then [0xE0 + n / 4096, 0x80 + (n / 64) % 64, 0x80 + n % 64]
    else [0xF0 + n / 262144, 0x80 + (n / 4096) % 64, 0x80 + (n / 64) % 64, 0x80 + n % 64]
  }

  /** `s.encode("utf-8")` */
  function Encode(s: string): (b: seq<Byte>)
    ensures |b| >= |s|
    ensures (forall i | 0 <= i < |s| :: s[i] as int < 0x80) ==> |b| == |s|
  {
    if s == [] then [] else EncodeChar(s[0]) + Encode(s[1..])
  }

  /** One decoding step at the front of `b`: the scalar decoded (or
      U+FFFD) and how many bytes it consumed. */
  function Step(b: seq<Byte>): (r: (int, nat))
    requires |b| > 0
    ensures 1 <= r.1 <= |b| && r.1 <= 4
    ensures IsScalar(r.0)
    ensures b[0] < 0x80 <==> (r.0 < 0x80 && r.1 == 1)
  {
    var b0: int := b[0];
    if b0 < 0x80 then (b0, 1)
    else if 0xC2 <= b0 <= 0xDF then
      if |b| >= 2 && IsCont(b[1]) then ((b0 - 0xC0) * 64 + (b[1] as int - 0x80), 2)
      else (Replacement, 1)
    else if 0xE0 <= b0 <= 0xEF then
      var lo := if b0 == 0xE0 then 0xA0 else 0x80;
      var hi := if b0 == 0xED then 0x9F else 0xBF;
      if |b| < 2 || !(lo <= b[1] <= hi) then (Replacement, 1)
      else if |b| < 3 || !IsCont(b[2]) then (Replacement, 2)
      else ((b0 - 0xE0) * 4096 + (b[1] as int - 0x80) * 64 + (b[2] as int - 0x80), 3)
    else if 0xF0 <= b0 <= 0xF4 then
      var lo := if b0 == 0xF0 then 0x90 else 0x80;
      var hi := if b0 == 0xF4 then 0x8F else 0xBF;
      if |b| < 2 || !(lo <= b[1] <= hi) then (Replacement, 1)
      else if |b| < 3 || !IsCont(b[2]) then (Replacement, 2)
      else if |b| < 4 || !IsCont(b[3]) then (Replacement, 3)
      else ((b0 - 0xF0) * 262144 + (b[1] as int - 0x80) * 4096 + (b[2] as int - 0x80) * 64 + (b[3] as int - 0x80), 4)
    else (Replacement, 1)
  }

  /** `b.decode("utf-8", errors="replace")` */
  function Decode(b: seq<Byte>): (s: string)
    ensures |s| <= |b|
    decreases |b|
  {
    if b == [] then []
    else
      var r := Step(b);
      [r.0 as char] + Decode(b[r.1..])
  }

  /** Pure ASCII bytes decode to the same code points, one per byte. */
  lemma {:induction false} DecodeAscii(b: seq<Byte>)
    requires forall i | 0 <= i < |b| :: b[i] < 0x80
    ensures |Decode(b)| == |b|
    ensures forall i | 0 <= i < |b| :: Decode(b)[i] as int == b[i]
  {
    if b != [] {
      DecodeAscii(b[1..]);
    }
  }

  /** The decoder reads back exactly the character that was encoded. */
  lemma StepOfEncodeChar(c: char, rest: seq<Byte>)
    ensures Step(EncodeChar(c) + rest) == (c as int, |EncodeChar(c)|)
  {
    var n := c as int;
    if n < 0x80 {
    } else if n < 0x800 {
      StepTwo(n, rest);
    } else if n < 0x10000 {
      StepThree(n, rest);
    } else {
      StepFour(n, rest);
    }
  }

  lemma StepTwo(n: int, rest: seq<Byte>)
    requires 0x80 <= n < 0x800
    ensures var b: seq<Byte> := [0xC0 + n / 64, 0x80 + n % 64] + rest; Step(b) == (n, 2)
  {
    var h, l := n / 64, n % 64;
    assert h * 64 + l == n;
  }

  lemma StepThree(n: int, rest: seq<Byte>)
    requires 0x800 <= n < 0x10000 && IsScalar(n)
    ensures var b: seq<Byte> := [0xE0 + n / 4096, 0x80 + (n / 64) % 64, 0x80 + n % 64] + rest;
            Step(b) == (n, 3)
  {
    var h, m, l := n / 4096, (n / 64) % 64, n % 64;
    assert n / 64 == h * 64 + m;
    assert h * 4096 + m * 64 + l == n;
    assert h == 0 ==> m >= 0x20;
    assert h == 0xD ==> m < 0x20;
  }

  lemma StepFour(n: int, rest: seq<Byte>)
    requires 0x10000 <= n < 0x110000
    ensures var b: seq<Byte> := [0xF0 + n / 262144, 0x80 + (n / 4096) % 64, 0x80 + (n / 64) % 64, 0x80 + n % 64] + rest;
            Step(b) == (n, 4)
  {
    var h, m1, m2, l := n / 262144, (n / 4096) % 64, (n / 64) % 64, n % 64;
    assert n / 4096 == h * 64 + m1;
    assert n / 64 == (n / 4096) * 64 + m2;
    assert h * 262144 + m1 * 4096 + m2 * 64 + l == n;
    assert h == 0 ==> m1 >= 0x10;
    assert h == 4 ==> m1 < 0x10;
  }

  /** Round trip: `s.encode("utf-8").decode("utf-8", errors="replace") == s`. */
  lemma {:induction false} DecodeEncode(s: string)
    ensures Decode(Encode(s)) == s
  {
    if s != [] {
      var e := EncodeChar(s[0]);
      StepOfEncodeChar(s[0], Encode(s[1..]));
      assert (e + Encode(s[1..]))[|e|..] == Encode(s[1..]);
      DecodeEncode(s[1..]);
    }
  }
}
