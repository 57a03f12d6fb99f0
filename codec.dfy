/** Text to bytes and back, as the terminal's send path does it
    (`main.py` `process_send_queue` and `write_auto_response`) and as
    its TX/RX display shows bytes (`send_data`, `process_buffered_data`):

      - HEX:     remove "0x", split on whitespace, `int(token, 16)` each;
      - Decimal: split on whitespace, `int(token, 10)` each;
      - ASCII:   `codecs.decode(text, "unicode_escape").encode("latin-1")`;

    then `bytes([...])`, which refuses any value outside 0..255. Every
    failure is a Python ValueError, modelled by `ValueError` below. */
module Codec {
  import opened Text
  import opened Wrappers
  import Utf8

  /** The ValueError cases the encoders raise. */
  datatype ValueError =
    | InvalidLiteral(token: string, base: nat)  // int(token, base) refuses the token
    | ByteOutOfRange(value: int)                // bytes([...]) meets a value outside 0..255
    | BadEscape                                 // the unicode_escape codec refuses the text
    | NotLatin1(codePoint: int)                 // .encode("latin-1") meets a code point above 0xFF

  // ---------------------------------------------------------------------
  // Python's int(s, base) for the two bases the terminal uses
  // ---------------------------------------------------------------------

  /** Value of an ASCII letter or digit as a digit (a/A = 10 ... z/Z = 35);
      36 for anything else, which no base accepts. */
  function DigitValue(c: char): (d: nat)
    ensures d <= 36
    ensures d < 10 <==> '0' <= c <= '9'
  {
    if '0' <= c <= '9' then c as int - '0' as int
    else if 'a' <= c <= 'z' then c as int - 'a' as int + 10
    else if 'A' <= c <= 'Z' then c as int - 'A' as int + 10
    else 36
  }

  predicate IsDigitIn(c: char, base: nat) {
    DigitValue(c) < base
  }

  /** Digits of `base`, with single underscores allowed between digits. */
  predicate WellFormedDigits(s: string, base: nat) {
    && |s| > 0 && IsDigitIn(s[0], base) && IsDigitIn(s[|s| - 1], base)
    && (forall i | 0 <= i < |s| :: s[i] == '_' || IsDigitIn(s[i], base))
    && (forall i | 0 <= i < |s| - 1 :: s[i] == '_' ==> s[i + 1] != '_')
  }

  /** The number the digits of `s` spell in `base`, underscores skipped. */
  function DigitsValue(s: string, base: nat): nat
    requires 2 <= base <= 36
    requires forall i | 0 <= i < |s| :: s[i] == '_' || IsDigitIn(s[i], base)
  {
    if s == [] then 0
    else if s[|s| - 1] == '_' then DigitsValue(s[..|s| - 1], base)
    else DigitsValue(s[..|s| - 1], base) * base + DigitValue(s[|s| - 1])
  }

  /** Appending a digit multiplies by the base and adds the digit. */
  lemma DigitsValueSnoc(s: string, c: char, base: nat)
    requires 2 <= base <= 36
    requires forall i | 0 <= i < |s| :: s[i] == '_' || IsDigitIn(s[i], base)
    requires IsDigitIn(c, base)
    ensures DigitsValue(s + [c], base) == DigitsValue(s, base) * base + DigitValue(c)
  {
    assert (s + [c])[..|s|] == s;
  }

  /** A three-digit decimal numeral. */
  lemma ThreeDigitsValue(s: string)
    requires |s| == 3 && forall j | 0 <= j < 3 :: '0' <= s[j] <= '9'
    ensures forall j | 0 <= j < 3 :: IsDigitIn(s[j], 10)
    ensures DigitsValue(s, 10) == 100 * DigitValue(s[0]) + 10 * DigitValue(s[1]) + DigitValue(s[2])
  {
    DigitsValueSnoc([], s[0], 10);
    DigitsValueSnoc([s[0]], s[1], 10);
    DigitsValueSnoc([s[0], s[1]], s[2], 10);
    assert [] + [s[0]] == [s[0]];
    assert [s[0]] + [s[1]] == [s[0], s[1]];
    assert [s[0], s[1]] + [s[2]] == s;
  }

  /** A leading '+' or '-': (is it negative, the rest). */
  function SplitSign(t: string): (bool, string) {
    if t != [] && (t[0] == '+' || t[0] == '-') then (t[0] == '-', t[1..]) else (false, t)
  }

  /** The "0x"/"0X" prefix base 16 allows, with the one underscore that
      may follow it. */
  function DropHexPrefix(u: string): string {
    if |u| >= 2 && u[0] == '0' && (u[1] == 'x' || u[1] == 'X') then
      if |u| >= 3 && u[2] == '_' then u[3..] else u[2..]
    else u
  }

  /** Python's `int(s, base)` for base 10 and 16: surrounding whitespace,
      an optional sign, for base 16 an optional 0x/0X prefix, then ASCII
      digits with single underscores between them. None where Python
      raises ValueError. */
  function ParseInt(s: string, base: nat): (r: Option<int>)
    requires base == 10 || base == 16
  {
    var (neg, u) := SplitSign(Strip(s));
    var d := if base == 16 then DropHexPrefix(u) else u;
    if WellFormedDigits(d, base) then
      var v: int := DigitsValue(d, base);
      Some(if neg then -v else v)
    else None
  }

  /** Index of the first token int() refuses, `|tokens|` when it reads all. */
  function FirstInvalid(tokens: seq<string>, base: nat): (k: nat)
    requires base == 10 || base == 16
    ensures k <= |tokens|
    ensures forall j | 0 <= j < k :: ParseInt(tokens[j], base).Some?
    ensures k < |tokens| ==> ParseInt(tokens[k], base).None?
  {
    if tokens == [] || ParseInt(tokens[0], base).None? then 0
    else 1 + FirstInvalid(tokens[1..], base)
  }

  /** `[int(t, base) for t in tokens]`: the first token int() refuses
      raises; otherwise one value per token, in order. */
  function ParseTokens(tokens: seq<string>, base: nat): (r: Result<seq<int>, ValueError>)
    requires base == 10 || base == 16
    ensures r.Ok? <==> forall i | 0 <= i < |tokens| :: ParseInt(tokens[i], base).Some?
    ensures r.Ok? ==> |r.value| == |tokens|
    ensures r.Ok? ==> forall i | 0 <= i < |tokens| :: ParseInt(tokens[i], base) == Some(r.value[i])
    ensures r.Err? ==> FirstInvalid(tokens, base) < |tokens|
                       && r.error == InvalidLiteral(tokens[FirstInvalid(tokens, base)], base)
  {
    var k := FirstInvalid(tokens, base);
    if k < |tokens| then Err(InvalidLiteral(tokens[k], base))
    else
      var vs := seq(|tokens|, i requires 0 <= i < |tokens| => LiteralValue(tokens[i], base));
      assert forall i | 0 <= i < |tokens| :: ParseInt(tokens[i], base) == Some(vs[i]);
      Ok(vs)
  }

  /** The value int() gives a token it accepts (0 for one it refuses). */
  function LiteralValue(t: string, base: nat): (v: int)
    requires base == 10 || base == 16
    ensures ParseInt(t, base).Some? ==> ParseInt(t, base) == Some(v)
  {
    match ParseInt(t, base)
    case Some(v) => v
    case None => 0
  }

  /** `bytes(ns)`: every value must lie in 0..255; the first one that
      does not raises. */
  function ToBytes(ns: seq<int>): (r: Result<seq<Byte>, ValueError>)
    ensures r.Ok? <==> forall i | 0 <= i < |ns| :: 0 <= ns[i] < 256
    ensures r.Ok? ==> r.value == ns
    ensures r.Err? ==> exists i | 0 <= i < |ns| ::
      && !(0 <= ns[i] < 256)
      && (forall j | 0 <= j < i :: 0 <= ns[j] < 256)
      && r.error == ByteOutOfRange(ns[i])
  {
    if ns == [] then Ok([])
    else if !(0 <= ns[0] < 256) then Err(ByteOutOfRange(ns[0]))
    else
      var rest := ToBytes(ns[1..]);
      if rest.Err? then
        ghost var i :| 0 <= i < |ns[1..]| && !(0 <= ns[1..][i] < 256)
                       && (forall j | 0 <= j < i :: 0 <= ns[1..][j] < 256)
                       && rest.error == ByteOutOfRange(ns[1..][i]);
        assert !(0 <= ns[i + 1] < 256);
        Err(rest.error)
      else
        assert ns == [ns[0]] + ns[1..];
        Ok([ns[0] as Byte] + rest.value)
  }

  // ---------------------------------------------------------------------
  // The three send encoders
  // ---------------------------------------------------------------------

  /** `int(t, base)` reads `t` as a value that fits a byte. */
  predicate IsByteToken(t: string, base: nat)
    requires base == 10 || base == 16
  {
    var v := ParseInt(t, base);
    v.Some? && 0 <= v.value < 256
  }

  /** `bytes([int(t, base) for t in tokens])`: succeeds exactly when every
      token reads as a byte value, and then gives those values in order.
      All tokens are read before any range check, so a bad literal is
      reported even when an earlier value is out of range. */
  function EncodeTokens(tokens: seq<string>, base: nat): (r: Result<seq<Byte>, ValueError>)
    requires base == 10 || base == 16
    ensures r.Ok? <==> forall i | 0 <= i < |tokens| :: IsByteToken(tokens[i], base)
    ensures r.Ok? ==> |r.value| == |tokens|
    ensures r.Ok? ==> forall i | 0 <= i < |tokens| :: ParseInt(tokens[i], base) == Some(r.value[i] as int)
    ensures FirstInvalid(tokens, base) < |tokens| ==>
      r == Err(InvalidLiteral(tokens[FirstInvalid(tokens, base)], base))
    ensures r.Err? && FirstInvalid(tokens, base) == |tokens| ==> r.error.ByteOutOfRange?
  {
    match ParseTokens(tokens, base)
    case Err(e) =>
      var k := FirstInvalid(tokens, base);
      assert !IsByteToken(tokens[k], base);
      Err(e)
    case Ok(ns) =>
      assert forall i | 0 <= i < |tokens| :: IsByteToken(tokens[i], base) <==> 0 <= ns[i] < 256;
      ToBytes(ns)
  }

  /** HEX: `bytes([int(p, 16) for p in text.replace("0x", "").split() if p])`.
      A later "0X" prefix is still accepted by int(). */
  function EncodeHex(text: string): (r: Result<seq<Byte>, ValueError>) {
    EncodeTokens(Words(Replace(text, "0x", "")), 16)
  }

  /** Decimal: `bytes([int(p, 10) for p in text.split() if p])`. */
  function EncodeDecimal(text: string): (r: Result<seq<Byte>, ValueError>) {
    EncodeTokens(Words(text), 10)
  }

  /** The escapes of the unicode_escape codec that stand for one fixed
      character: \\ \' \" \a \b \f \n \r \t \v. */
  function SimpleEscape(c: Byte): (r: Option<int>)
    ensures r.Some? ==> 0 <= r.value < 128
  {
    if c == '\\' as int then Some('\\' as int)
    else if c == '\'' as int then Some('\'' as int)
    else if c == '"' as int then Some('"' as int)
    else if c == 'a' as int then Some(7)
    else if c == 'b' as int then Some(8)
    else if c == 'f' as int then Some(12)
    else if c == 'n' as int then Some(10)
    else if c == 'r' as int then Some(13)
    else if c == 't' as int then Some(9)
    else if c == 'v' as int then Some(11)
    else None
  }

  predicate IsOctalByte(b: Byte) {
    '0' as int <= b <= '7' as int
  }

  /** Value of a run of octal digits. */
  function OctalValue(b: seq<Byte>): nat
    requires forall i | 0 <= i < |b| :: IsOctalByte(b[i])
  {
    if b == [] then 0
    else
      assert IsOctalByte(b[|b| - 1]);
      OctalValue(b[..|b| - 1]) * 8 + (b[|b| - 1] as int - '0' as int)
  }

  /** Value of a run of hex digits, None when one of them is not a hex digit. */
  function HexRunValue(b: seq<Byte>): (r: Option<nat>)
    ensures r.Some? <==> forall i | 0 <= i < |b| :: b[i] < 128 && IsDigitIn(b[i] as char, 16)
  {
    if b == [] then Some(0)
    else if b[|b| - 1] < 128 && IsDigitIn(b[|b| - 1] as char, 16) then
      match HexRunValue(b[..|b| - 1])
      case None => None
      case Some(v) => Some(v * 16 + DigitValue(b[|b| - 1] as char))
    else None
  }

  /** Put one decoded code point in front of a decoding result. */
  function Cons(x: int, r: Result<seq<int>, ValueError>): Result<seq<int>, ValueError> {
    match r
    case Ok(v) => Ok([x] + v)
    case Err(e) => Err(e)
  }

  /** The `unicode_escape` codec on bytes: every byte stands for the code
      point of the same value except after a backslash, where
      \<newline> is dropped; \\ \' \" \a \b \f \n \r \t \v stand for one
      character; one to three octal digits give a code point; \x, \u
      and \U take exactly 2, 4 and 8 hex digits (\U at most 0x10FFFF);
      any other character keeps its backslash. A lone final backslash, a
      short hex escape and \N{...} fail. */
  function EscapeDecode(b: seq<Byte>): (r: Result<seq<int>, ValueError>)
    ensures r.Err? ==> r.error == BadEscape
    decreases |b|
  {
    if b == [] then Ok([])
    else if b[0] != '\\' as int then Cons(b[0], EscapeDecode(b[1..]))
    else if |b| == 1 then Err(BadEscape)
    else
      var c := b[1];
      if c == '\n' as int then EscapeDecode(b[2..])
      else if SimpleEscape(c).Some? then Cons(SimpleEscape(c).value, EscapeDecode(b[2..]))
      else if IsOctalByte(c) then
        var k := if |b| > 2 && IsOctalByte(b[2]) then (if |b| > 3 && IsOctalByte(b[3]) then 3 else 2) else 1;
        Cons(OctalValue(b[1..1 + k]), EscapeDecode(b[1 + k..]))
      else if c == 'x' as int || c == 'u' as int || c == 'U' as int then
        var n := if c == 'x' as int then 2 else if c == 'u' as int then 4 else 8;
        if |b| < 2 + n then Err(BadEscape)
        else
          match HexRunValue(b[2..2 + n])
          case None => Err(BadEscape)
          case Some(v) => if v > 0x10FFFF then Err(BadEscape) else Cons(v, EscapeDecode(b[2 + n..]))
      else if c == 'N' as int then Err(BadEscape)
      else Cons('\\' as int, Cons(c, EscapeDecode(b[2..])))
  }

  /** `.encode("latin-1")` of a list of code points. */
  function Latin1(cps: seq<int>): (r: Result<seq<Byte>, ValueError>)
    ensures r.Ok? <==> forall i | 0 <= i < |cps| :: 0 <= cps[i] < 256
    ensures r.Ok? ==> r.value == cps
  {
    if cps == [] then Ok([])
    else if !(0 <= cps[0] < 256) then Err(NotLatin1(cps[0]))
    else
      match Latin1(cps[1..])
      case Err(e) => Err(e)
      case Ok(rest) =>
        assert cps == [cps[0]] + cps[1..];
        Ok([cps[0] as Byte] + rest)
  }

  /** ASCII: `codecs.decode(text, "unicode_escape").encode("latin-1")`.
      The codec reads a str argument as its UTF-8 bytes, so text outside
      ASCII is sent as its UTF-8 form. */
  function EncodeAscii(text: string): (r: Result<seq<Byte>, ValueError>) {
    var cps :- EscapeDecode(Utf8.Encode(text));
    Latin1(cps)
  }

  /** The send encoder chosen by a sequence's mode string: "ASCII",
      "HEX", and every other string is read as Decimal. */
  function Encode(mode: string, text: string): (r: Result<seq<Byte>, ValueError>)
    ensures mode != "ASCII" && mode != "HEX" ==> r == EncodeDecimal(text)
  {
    if mode == "ASCII" then EncodeAscii(text)
    else if mode == "HEX" then EncodeHex(text)
    else EncodeDecimal(text)
  }

  // ---------------------------------------------------------------------
  // Display formatters
  // ---------------------------------------------------------------------

  /** Upper-case hex digit. */
  function HexDigitChar(k: nat): (c: char)
    requires k < 16
    ensures DigitValue(c) == k && c != 'x' && c != 'X' && c != ',' && !IsSpace(c)
  {
    if k < 10 then ('0' as int + k) as char else ('A' as int + k - 10) as char
  }

  /** The two upper-case hex digits of one byte. */
  function HexPair(b: Byte): (s: string)
    ensures |s| == 2
  {
    [HexDigitChar(b / 16), HexDigitChar(b % 16)]
  }

  /** `data.hex(" ").upper()` */
  function FormatHex(data: seq<Byte>): string {
    JoinSpace(seq(|data|, i requires 0 <= i < |data| => HexPair(data[i])))
  }

  function DecimalDigitChar(k: nat): (c: char)
    requires k < 10
    ensures DigitValue(c) == k && '0' <= c <= '9'
  {
    ('0' as int + k) as char
  }

  /** `str(n)` for a natural number. */
  function NatToString(n: nat): (s: string)
    ensures s != [] && forall i | 0 <= i < |s| :: '0' <= s[i] <= '9'
  {
    if n < 10 then [DecimalDigitChar(n)] else NatToString(n / 10) + [DecimalDigitChar(n % 10)]
  }

  /** `" ".join(str(b) for b in data)` */
  function FormatDecimal(data: seq<Byte>): string {
    JoinSpace(seq(|data|, i requires 0 <= i < |data| => NatToString(data[i])))
  }

  // ---------------------------------------------------------------------
  // Properties
  // ---------------------------------------------------------------------

  /** A join of words none of which holds `c` does not hold `c`. */
  lemma {:induction false} JoinSpaceLacks(ws: seq<string>, c: char)
    requires c != ' '
    requires forall i | 0 <= i < |ws| :: forall j | 0 <= j < |ws[i]| :: ws[i][j] != c
    ensures forall k | 0 <= k < |JoinSpace(ws)| :: JoinSpace(ws)[k] != c
  {
    if |ws| > 1 {
      JoinSpaceLacks(ws[1..], c);
      var rest := JoinSpace(ws[1..]);
      forall k | 0 <= k < |JoinSpace(ws)| ensures JoinSpace(ws)[k] != c {
        if k < |ws[0]| {
        } else if k == |ws[0]| {
        } else {
          assert JoinSpace(ws)[k] == rest[k - |ws[0]| - 1];
        }
      }
    }
  }

  /** `replace` leaves a string alone when it lacks one character of the pattern. */
  lemma {:induction false} ReplaceWithout(s: string, pat: string, rep: string, j: nat)
    requires j < |pat|
    requires forall i | 0 <= i < |s| :: s[i] != pat[j]
    ensures Replace(s, pat, rep) == s
  {
    if |s| >= |pat| {
      assert s[j] != pat[j];
      assert !(pat <= s);
      ReplaceWithout(s[1..], pat, rep, j);
    }
  }

  /** A bare run of digits (no sign, no prefix, no underscore) is read as
      the number it spells. */
  lemma ParseIntDigits(s: string, base: nat)
    requires base == 10 || base == 16
    requires s != [] && forall i | 0 <= i < |s| :: IsDigitIn(s[i], base)
    requires base == 16 && |s| >= 2 ==> s[1] != 'x' && s[1] != 'X'
    ensures ParseInt(s, base) == Some(DigitsValue(s, base) as int)
  {
    assert !IsSpace(s[0]) && !IsSpace(s[|s| - 1]);
    StripOfStripped(s);
    assert SplitSign(s) == (false, s);
    assert DropHexPrefix(s) == s;
    assert WellFormedDigits(s, base);
  }

  lemma HexPairParses(b: Byte)
    ensures ParseInt(HexPair(b), 16) == Some(b)
  {
    var p := HexPair(b);
    ParseIntDigits(p, 16);
    assert p[..1] == [p[0]];
    assert [p[0]][..0] == [];
    assert p[1] != '_' && p[0] != '_';
    assert DigitsValue([p[0]], 16) == b / 16;
    assert DigitsValue(p, 16) == DigitsValue([p[0]], 16) * 16 + b % 16;
  }

  lemma {:induction false} NatToStringValue(n: nat)
    ensures DigitsValue(NatToString(n), 10) == n
  {
    var s := NatToString(n);
    if n < 10 {
      assert s[..0] == [];
    } else {
      NatToStringValue(n / 10);
      assert s[..|s| - 1] == NatToString(n / 10);
    }
  }

  lemma NatToStringParses(n: nat)
    ensures ParseInt(NatToString(n), 10) == Some(n)
  {
    ParseIntDigits(NatToString(n), 10);
    NatToStringValue(n);
  }

  /** Tokens read as the given bytes are encoded as exactly those bytes. */
  lemma EncodeFromTokens(tokens: seq<string>, base: nat, data: seq<Byte>)
    requires base == 10 || base == 16
    requires |data| == |tokens|
    requires forall i | 0 <= i < |tokens| :: ParseInt(tokens[i], base) == Some(data[i] as int)
    ensures EncodeTokens(tokens, base) == Ok(data)
  {
    forall i | 0 <= i < |tokens| ensures IsByteToken(tokens[i], base) {
      assert ParseInt(tokens[i], base) == Some(data[i] as int);
    }
    var r := EncodeTokens(tokens, base);
    assert r.Ok? && |r.value| == |data|;
    forall i | 0 <= i < |tokens| ensures r.value[i] == data[i] {
      assert Some(r.value[i] as int) == ParseInt(tokens[i], base) == Some(data[i] as int);
    }
    assert r.value == data;
  }

  /** Round trip of the HEX display: bytes shown as `data.hex(" ").upper()`
      and typed back into a HEX sequence are sent as the same bytes. */
  lemma HexDisplayRoundTrip(data: seq<Byte>)
    ensures EncodeHex(FormatHex(data)) == Ok(data)
  {
    var pairs := seq(|data|, i requires 0 <= i < |data| => HexPair(data[i]));
    var s := FormatHex(data);
    assert Words(Replace(s, "0x", "")) == pairs by {
      JoinSpaceLacks(pairs, 'x');
      ReplaceWithout(s, "0x", "", 1);
      forall i | 0 <= i < |pairs| ensures pairs[i] != [] && NoSpace(pairs[i]) {
      }
      WordsOfJoin(pairs);
    }
    forall i | 0 <= i < |pairs| ensures ParseInt(pairs[i], 16) == Some(data[i] as int) {
      HexPairParses(data[i]);
    }
    EncodeFromTokens(pairs, 16, data);
  }

  /** Round trip of the Decimal display: `" ".join(str(b) ...)` typed back
      into a Decimal sequence is sent as the same bytes. */
  lemma DecimalDisplayRoundTrip(data: seq<Byte>)
    ensures EncodeDecimal(FormatDecimal(data)) == Ok(data)
  {
    var strs := seq(|data|, i requires 0 <= i < |data| => NatToString(data[i]));
    forall i | 0 <= i < |strs| ensures strs[i] != [] && NoSpace(strs[i]) {
    }
    WordsOfJoin(strs);
    forall i | 0 <= i < |strs| ensures ParseInt(strs[i], 10) == Some(data[i] as int) {
      NatToStringParses(data[i]);
    }
    EncodeFromTokens(strs, 10, data);
  }

  /** Text without a backslash goes out as its UTF-8 bytes, unchanged. */
  lemma {:induction false} EscapeDecodePlain(b: seq<Byte>)
    requires forall i | 0 <= i < |b| :: b[i] != '\\' as int
    ensures EscapeDecode(b) == Ok(b)
  {
    if b != [] {
      EscapeDecodePlain(b[1..]);
      assert b == [b[0]] + b[1..];
    }
  }

  lemma {:induction false} Utf8NoBackslash(s: string)
    requires forall i | 0 <= i < |s| :: s[i] != '\\'
    ensures forall i | 0 <= i < |Utf8.Encode(s)| :: Utf8.Encode(s)[i] != '\\' as int
  {
    if s != [] {
      Utf8NoBackslash(s[1..]);
      var e := Utf8.EncodeChar(s[0]);
      assert |e| > 1 ==> e[0] >= 0xC0;
      assert Utf8.Encode(s) == e + Utf8.Encode(s[1..]);
    }
  }

  /** ASCII mode without escapes sends the text's UTF-8 bytes. */
  lemma EncodeAsciiPlain(text: string)
    requires forall i | 0 <= i < |text| :: text[i] != '\\'
    ensures EncodeAscii(text) == Ok(Utf8.Encode(text))
  {
    Utf8NoBackslash(text);
    EscapeDecodePlain(Utf8.Encode(text));
  }
}
