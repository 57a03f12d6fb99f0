/** The live normalisers of the sequence editors: every edit of a HEX or
    Decimal field is cleaned, checked and, where it differs, rewritten
    (`sequence_editor_dialog.py` `validate_current_text`; the same rules
    per field in `SequenceEditorDialog2.py`). ASCII fields are left as
    typed. */
module Normalise {
  import opened Text
  import opened Wrappers
  import Codec

  /** The edit modes a dialog's radio buttons offer. */
  datatype Mode = ASCII | HEX | Decimal

  /** The radio button a stored mode string selects: "HEX", "Decimal",
      and every other string (a missing one included) selects ASCII. */
  function ModeOf(name: string): (m: Mode)
    ensures m == HEX <==> name == "HEX"
    ensures m == Decimal <==> name == "Decimal"
  {
    if name == "HEX" then HEX else if name == "Decimal" then Decimal else ASCII
  }

  /** The string `get_current_mode` reports for a mode. */
  function ModeName(m: Mode): (name: string)
    ensures ModeOf(name) == m
  {
    match m
    case ASCII => "ASCII"
    case HEX => "HEX"
    case Decimal => "Decimal"
  }

  /** `c in "0123456789abcdefABCDEF "` */
  predicate HexAlphabet(c: char) {
    '0' <= c <= '9' || 'a' <= c <= 'f' || 'A' <= c <= 'F' || c == ' '
  }

  /** What the HEX cleaner leaves: upper-case hex digits and spaces. */
  predicate UpperHexAlphabet(c: char) {
    '0' <= c <= '9' || 'A' <= c <= 'F' || c == ' '
  }

  /** `c in "0123456789 "` */
  predicate DecimalAlphabet(c: char) {
    '0' <= c <= '9' || c == ' '
  }

  /** The tooltips the editors show on an invalid field; "" is a valid field. */
  const HexTooltip: string := "HEX values \U{200B}\U{200B}must be 1 or 2 characters long."
  const DecimalTooltip: string := "Decimal values \U{200B}\U{200B}must be between 0 and 255."

  /** `str.upper()` on ASCII letters; the cleaned text holds nothing else. */
  function Upper(s: string): (r: string)
    ensures |r| == |s|
    ensures forall i | 0 <= i < |s| :: r[i] == (if 'a' <= s[i] <= 'z' then (s[i] as int - 32) as char else s[i])
  {
    if s == [] then []
    else [if 'a' <= s[0] <= 'z' then (s[0] as int - 32) as char else s[0]] + Upper(s[1..])
  }

  /** An upper-case hex digit. */
  predicate UpperHexDigit(c: char) {
    '0' <= c <= '9' || 'A' <= c <= 'F'
  }

  /** Removing the spaces of cleaned HEX text leaves hex digits only. */
  lemma DropSpacesHex(s: string)
    requires AllIn(s, UpperHexAlphabet)
    ensures AllIn(DropSpaces(s), UpperHexDigit)
  {
    DropSpacesAllIn(s, UpperHexAlphabet);
  }

  // ---------------------------------------------------------------------
  // HEX
  // ---------------------------------------------------------------------

  /** Keep hex digits and spaces, upper-case, collapse and trim the spaces. */
  function HexClean(text: string): (r: string)
    ensures AllIn(r, UpperHexAlphabet)
    ensures Words(r) == Words(Upper(Filter(text, HexAlphabet)))
    ensures r == JoinSpace(Words(r))
  {
    var u := Upper(Filter(text, HexAlphabet));
    WordsAllIn(u, UpperHexAlphabet);
    JoinSpaceAllIn(Words(u), UpperHexAlphabet);
    CollapseSpaces(u);
    JoinSpace(Words(u))
  }

  /** HEX validity: no cleaned token is longer than two digits. */
  predicate HexValid(text: string) {
    var parts := Words(HexClean(text));
    forall i | 0 <= i < |parts| :: |parts[i]| <= 2
  }

  /** `[s[i:i+2] for i in range(0, len(s), 2)]` */
  function Pairs(s: string): (ps: seq<string>)
    ensures |ps| == (|s| + 1) / 2
    ensures Concat(ps) == s
    decreases |s|
  {
    if s == [] then []
    else if |s| <= 2 then
      assert Concat([s]) == s + Concat([]);
      [s]
    else
      var rest := Pairs(s[2..]);
      assert s == s[..2] + s[2..];
      [s[..2]] + rest
  }

  /** Piece `i` is the slice `s[2i:2i+2]`, cut short at the end. */
  lemma PairsSlices(s: string)
    ensures forall i | 0 <= i < |Pairs(s)| ::
      Pairs(s)[i] == s[2 * i..if 2 * i + 2 <= |s| then 2 * i + 2 else |s|]
  {
    forall i | 0 <= i < |Pairs(s)|
      ensures Pairs(s)[i] == s[2 * i..if 2 * i + 2 <= |s| then 2 * i + 2 else |s|]
    {
      PairAt(s, i);
    }
  }

  /** The same, one piece at a time. */
  lemma {:induction false} PairAt(s: string, i: nat)
    requires i < |Pairs(s)|
    ensures Pairs(s)[i] == s[2 * i..if 2 * i + 2 <= |s| then 2 * i + 2 else |s|]
    decreases i
  {
    if i == 0 {
      if |s| <= 2 {
        assert Pairs(s) == [s];
        assert s[0..|s|] == s;
      } else {
        assert Pairs(s)[0] == s[..2];
      }
    } else {
      var t := s[2..];
      assert Pairs(s) == [s[..2]] + Pairs(t);
      PairAt(t, i - 1);
      var hi := if 2 * (i - 1) + 2 <= |t| then 2 * (i - 1) + 2 else |t|;
      SliceOfSlice(s, 2, 2 * (i - 1), hi);
    }
  }

  /** A slice of a suffix is a slice of the whole, shifted. */
  lemma SliceOfSlice<T>(s: seq<T>, k: nat, a: nat, b: nat)
    requires k <= |s| && a <= b <= |s| - k
    ensures s[k..][a..b] == s[k + a..k + b]
  {
    assert forall j | 0 <= j < b - a :: s[k..][a..b][j] == s[k + a + j];
  }

  /** The pieces are non-empty and keep to the alphabet of the whole. */
  lemma PairsAllIn(s: string, allowed: char -> bool)
    requires AllIn(s, allowed)
    ensures forall i | 0 <= i < |Pairs(s)| :: Pairs(s)[i] != [] && AllIn(Pairs(s)[i], allowed)
  {
    var ps := Pairs(s);
    PairsSlices(s);
    forall i | 0 <= i < |ps| ensures ps[i] != [] && AllIn(ps[i], allowed) {
      AllInSlice(s, 2 * i, if 2 * i + 2 <= |s| then 2 * i + 2 else |s|, allowed);
    }
  }

  /** The HEX rewrite: the cleaned digits regrouped two by two. */
  function HexReformat(text: string): (r: string)
    ensures AllIn(r, UpperHexAlphabet)
  {
    var d := DropSpaces(HexClean(text));
    assert AllIn(d, UpperHexAlphabet) by {
      DropSpacesAllIn(HexClean(text), UpperHexAlphabet);
    }
    PairsAllIn(d, UpperHexAlphabet);
    JoinSpaceAllIn(Pairs(d), UpperHexAlphabet);
    JoinSpace(Pairs(d))
  }

  // ---------------------------------------------------------------------
  // Decimal
  // ---------------------------------------------------------------------

  /** Keep decimal digits and spaces, collapse and trim the spaces. */
  function DecimalClean(text: string): (r: string)
    ensures AllIn(r, DecimalAlphabet)
    ensures Words(r) == Words(Filter(text, DecimalAlphabet))
    ensures r == JoinSpace(Words(r))
  {
    var f := Filter(text, DecimalAlphabet);
    WordsAllIn(f, DecimalAlphabet);
    JoinSpaceAllIn(Words(f), DecimalAlphabet);
    CollapseSpaces(f);
    JoinSpace(Words(f))
  }

  /** Decimal validity: `0 <= int(p) <= 255` for every cleaned token, a
      ValueError counting as invalid. */
  predicate DecimalValid(text: string) {
    var parts := Words(DecimalClean(text));
    forall i | 0 <= i < |parts| :: Codec.IsByteToken(parts[i], 10)
  }

  // ---------------------------------------------------------------------
  // One validation pass
  // ---------------------------------------------------------------------

  /** What one validation pass leaves in a field: its text (rewritten or
      not) and its tooltip ("" when valid). */
  datatype Check = Check(text: string, tooltip: string)

  /** One pass of `validate_current_text` over a field in mode `m`. The
      text is rewritten only when the normal form differs from it. */
  function Validate(m: Mode, text: string): (c: Check)
    ensures m == ASCII ==> c == Check(text, "")
    ensures m == HEX ==> c.text == HexReformat(text)
    ensures m == HEX ==> (c.tooltip == "" <==> HexValid(text))
    ensures m == Decimal ==> c.text == DecimalClean(text)
    ensures m == Decimal ==> (c.tooltip == "" <==> DecimalValid(text))
  {
    match m
    case ASCII => Check(text, "")
    case HEX => Check(HexReformat(text), if HexValid(text) then "" else HexTooltip)
    case Decimal => Check(DecimalClean(text), if DecimalValid(text) then "" else DecimalTooltip)
  }

  // ---------------------------------------------------------------------
  // Properties
  // ---------------------------------------------------------------------

  /** Cleaning HEX text twice is cleaning it once. */
  lemma HexCleanIdempotent(text: string)
    ensures HexClean(HexClean(text)) == HexClean(text)
  {
    var c := HexClean(text);
    assert Filter(c, HexAlphabet) == c;
    assert Upper(c) == c;
  }

  /** Regrouped hex digits, split on their spaces, are the pairs again;
      without their spaces they are the digits again. */
  lemma RegroupPieces(d: string)
    requires AllIn(d, UpperHexDigit)
    ensures Words(JoinSpace(Pairs(d))) == Pairs(d)
    ensures DropSpaces(JoinSpace(Pairs(d))) == d
  {
    PairsAllIn(d, UpperHexDigit);
    WordsOfJoin(Pairs(d));
    DropSpacesOfJoin(Pairs(d));
  }

  /** The regrouped HEX text, split on its spaces, is the list of pairs of
      cleaned digits; without its spaces it is the cleaned digits. */
  lemma HexReformatPieces(text: string)
    ensures var d := DropSpaces(HexClean(text));
      && Words(HexReformat(text)) == Pairs(d)
      && DropSpaces(HexReformat(text)) == d
  {
    var d := DropSpaces(HexClean(text));
    DropSpacesHex(HexClean(text));
    RegroupPieces(d);
    assert HexReformat(text) == JoinSpace(Pairs(d));
  }

  /** All pairs are two digits long except possibly the last, which may be one. */
  lemma PairsSizes(s: string)
    ensures forall i | 0 <= i < |Pairs(s)| :: 1 <= |Pairs(s)[i]| <= 2
    ensures forall i | 0 <= i < |Pairs(s)| - 1 :: |Pairs(s)[i]| == 2
  {
    PairsSlices(s);
  }

  /** Regrouped hex digits are in HEX normal form: cleaning changes nothing. */
  lemma CleanOfRegroup(d: string)
    requires AllIn(d, UpperHexDigit)
    ensures HexClean(JoinSpace(Pairs(d))) == JoinSpace(Pairs(d))
  {
    var r := JoinSpace(Pairs(d));
    RegroupPieces(d);
    PairsAllIn(d, UpperHexAlphabet);
    JoinSpaceAllIn(Pairs(d), UpperHexAlphabet);
    UpperHexUnchanged(r);
    assert Upper(Filter(r, HexAlphabet)) == r;
    assert HexClean(r) == JoinSpace(Words(r));
  }

  /** Cleaned HEX text passes the HEX filter and upper-casing unchanged. */
  lemma UpperHexUnchanged(s: string)
    requires AllIn(s, UpperHexAlphabet)
    ensures Filter(s, HexAlphabet) == s
    ensures Upper(s) == s
  {
    forall i | 0 <= i < |s|
      ensures HexAlphabet(s[i])
    {
      assert UpperHexAlphabet(s[i]);
    }
    assert forall i | 0 <= i < |s| :: Upper(s)[i] == s[i];
  }

  /** Rewritten HEX text is already in normal form: cleaning it changes nothing. */
  lemma HexCleanOfReformat(text: string)
    ensures HexClean(HexReformat(text)) == HexReformat(text)
  {
    var d := DropSpaces(HexClean(text));
    DropSpacesHex(HexClean(text));
    CleanOfRegroup(d);
    assert HexReformat(text) == JoinSpace(Pairs(d));
  }

  /** The HEX rewrite is idempotent, so the editor never rewrites its own
      output. */
  lemma HexReformatIdempotent(text: string)
    ensures HexReformat(HexReformat(text)) == HexReformat(text)
  {
    HexCleanOfReformat(text);
    HexReformatPieces(text);
  }

  /** Rewritten HEX text is always valid. */
  lemma HexReformatValid(text: string)
    ensures HexValid(HexReformat(text))
  {
    HexCleanOfReformat(text);
    HexReformatPieces(text);
    PairsSizes(DropSpaces(HexClean(text)));
  }

  /** A second validation pass over a HEX field finds nothing to change
      and nothing to complain about. */
  lemma HexValidateFixpoint(text: string)
    ensures var c := Validate(HEX, text); Validate(HEX, c.text) == Check(c.text, "")
  {
    HexReformatIdempotent(text);
    HexReformatValid(text);
  }

  /** A one- or two-digit upper-case hex token is read by int(p, 16) as a
      value that fits a byte. */
  lemma ShortHexTokenParses(p: string)
    requires 1 <= |p| <= 2 && AllIn(p, UpperHexDigit)
    ensures Codec.ParseInt(p, 16).Some? && 0 <= Codec.ParseInt(p, 16).value < 256
  {
    assert forall j | 0 <= j < |p| :: Codec.IsDigitIn(p[j], 16);
    Codec.ParseIntDigits(p, 16);
    Codec.DigitsValueSnoc([], p[0], 16);
    assert [] + [p[0]] == [p[0]];
    if |p| == 2 {
      Codec.DigitsValueSnoc([p[0]], p[1], 16);
      assert [p[0]] + [p[1]] == p;
    } else {
      assert [p[0]] == p;
    }
  }

  /** Pairs of hex digits are read as one byte each. */
  lemma PairsAreBytes(d: string)
    requires AllIn(d, UpperHexDigit)
    ensures Codec.EncodeTokens(Pairs(d), 16).Ok?
  {
    var ps := Pairs(d);
    PairsAllIn(d, UpperHexDigit);
    PairsSizes(d);
    forall i | 0 <= i < |ps| ensures Codec.IsByteToken(ps[i], 16) {
      ShortHexTokenParses(ps[i]);
    }
  }

  /** Regrouped hex digits go through the HEX send encoder, one byte per pair. */
  lemma RegroupEncodes(d: string)
    requires AllIn(d, UpperHexDigit)
    ensures Codec.EncodeHex(JoinSpace(Pairs(d))).Ok?
    ensures |Codec.EncodeHex(JoinSpace(Pairs(d))).value| == (|d| + 1) / 2
  {
    var r := JoinSpace(Pairs(d));
    RegroupPieces(d);
    PairsAllIn(d, UpperHexDigit);
    JoinSpaceAllIn(Pairs(d), UpperHexAlphabet);
    Codec.ReplaceWithout(r, "0x", "", 1);
    PairsAreBytes(d);
  }

  /** Whatever was typed, the rewritten HEX text is accepted by the HEX
      send encoder, as one byte per regrouped token. */
  lemma HexReformatEncodes(text: string)
    ensures Codec.EncodeHex(HexReformat(text)).Ok?
    ensures |Codec.EncodeHex(HexReformat(text)).value| == (|DropSpaces(HexClean(text))| + 1) / 2
  {
    var d := DropSpaces(HexClean(text));
    DropSpacesHex(HexClean(text));
    RegroupEncodes(d);
    assert HexReformat(text) == JoinSpace(Pairs(d));
  }

  /** Cleaning Decimal text twice is cleaning it once. */
  lemma DecimalCleanIdempotent(text: string)
    ensures DecimalClean(DecimalClean(text)) == DecimalClean(text)
  {
    var c := DecimalClean(text);
    assert Filter(c, DecimalAlphabet) == c;
  }

  /** A second validation pass over a Decimal field changes nothing and
      gives the same verdict. */
  lemma DecimalValidateFixpoint(text: string)
    ensures var c := Validate(Decimal, text); Validate(Decimal, c.text) == c
  {
    DecimalCleanIdempotent(text);
  }

  /** A cleaned Decimal token is a plain run of digits, which int() always reads. */
  lemma DecimalTokensParse(text: string)
    ensures var parts := Words(DecimalClean(text));
      forall i | 0 <= i < |parts| :: Codec.ParseInt(parts[i], 10).Some?
  {
    var parts := Words(DecimalClean(text));
    WordsAllIn(DecimalClean(text), DecimalAlphabet);
    forall i | 0 <= i < |parts| ensures Codec.ParseInt(parts[i], 10).Some? {
      assert forall j | 0 <= j < |parts[i]| :: Codec.IsDigitIn(parts[i][j], 10);
      Codec.ParseIntDigits(parts[i], 10);
    }
  }

  /** The editor's Decimal verdict agrees with the Decimal send encoder:
      the cleaned text is valid exactly when it can be sent. */
  lemma DecimalValidIffEncodes(text: string)
    ensures DecimalValid(text) <==> Codec.EncodeDecimal(DecimalClean(text)).Ok?
  {
  }

  /** A single run of digits cleans to itself. */
  lemma DecimalCleanOfNumber(s: string)
    requires s != [] && forall j | 0 <= j < |s| :: '0' <= s[j] <= '9'
    ensures DecimalClean(s) == s
  {
    assert Filter(s, DecimalAlphabet) == s;
    DigitsNoSpace(s);
    WordsOfSingle(s);
  }

  /** A field holding one number is valid exactly when int() reads it as a byte. */
  lemma NumberField(s: string)
    requires s != [] && forall j | 0 <= j < |s| :: '0' <= s[j] <= '9'
    ensures DecimalValid(s) <==> Codec.IsByteToken(s, 10)
  {
    DecimalCleanOfNumber(s);
    DigitsNoSpace(s);
    WordsOfSingle(s);
    var parts := Words(DecimalClean(s));
    assert parts == [s];
  }

  /** Digits are not whitespace. */
  lemma DigitsNoSpace(s: string)
    requires forall j | 0 <= j < |s| :: '0' <= s[j] <= '9'
    ensures NoSpace(s)
  {
  }

  /** A three-digit field is valid exactly when its value is at most 255. */
  lemma ThreeDigitField(s: string)
    requires |s| == 3 && forall j | 0 <= j < 3 :: '0' <= s[j] <= '9'
    ensures DecimalValid(s) <==> 100 * Codec.DigitValue(s[0]) + 10 * Codec.DigitValue(s[1]) + Codec.DigitValue(s[2]) <= 255
  {
    NumberField(s);
    Codec.ThreeDigitsValue(s);
    Codec.ParseIntDigits(s, 10);
  }

  /** "255" is a valid Decimal field. */
  lemma DecimalMaxExample()
    ensures DecimalValid("255")
  {
    ThreeDigitField("255");
  }

  /** "256" is not a valid Decimal field. */
  lemma DecimalOverExample()
    ensures !DecimalValid("256")
  {
    ThreeDigitField("256");
  }

  /** "-1" is cleaned to "1": the minus sign is not a decimal character. */
  lemma DecimalSignExample()
    ensures DecimalClean("-1") == "1"
  {
    assert Filter("-1", DecimalAlphabet) == "1";
    WordsOfSingle("1");
  }

  /** A single run of upper-case hex digits cleans to itself. */
  lemma HexCleanOfWord(s: string)
    requires s != [] && AllIn(s, UpperHexDigit)
    ensures HexClean(s) == s
  {
    forall i | 0 <= i < |s|
      ensures UpperHexAlphabet(s[i]) && !IsSpace(s[i])
    {
      assert UpperHexDigit(s[i]);
    }
    UpperHexUnchanged(s);
    WordsOfSingle(s);
    assert HexClean(s) == JoinSpace(Words(s));
  }

  /** "ABC" is refused: one token of three digits. */
  lemma HexLongTokenExample()
    ensures !HexValid("ABC")
  {
    HexCleanOfWord("ABC");
    WordsOfSingle("ABC");
  }

  /** A single run of upper-case hex digits is rewritten as its pairs. */
  lemma HexReformatOfWord(s: string)
    requires s != [] && AllIn(s, UpperHexDigit)
    ensures HexReformat(s) == JoinSpace(Pairs(s))
  {
    HexCleanOfWord(s);
    assert DropSpaces(s) == s;
  }

  /** Three hex digits are regrouped as a pair and a single digit. */
  lemma HexReformatThree(s: string)
    requires |s| == 3 && AllIn(s, UpperHexDigit)
    ensures HexReformat(s) == s[..2] + " " + s[2..]
  {
    HexReformatOfWord(s);
    JoinPairsOfThree(s);
  }

  lemma JoinPairsOfThree(s: string)
    requires |s| == 3
    ensures JoinSpace(Pairs(s)) == s[..2] + " " + s[2..]
  {
    var t := s[2..];
    assert Pairs(t) == [t];
    assert Pairs(s) == [s[..2]] + [t] == [s[..2], t];
    assert JoinSpace([s[..2], t]) == s[..2] + " " + JoinSpace([t]);
  }

  /** "ABC" is rewritten as "AB C". */
  lemma HexRegroupExample(s: string)
    requires s == "ABC"
    ensures HexReformat(s) == "AB C"
  {
    assert AllIn(s, UpperHexDigit);
    assert s[..2] + " " + s[2..] == "AB C";
    HexReformatThree(s);
  }

  /** "ABC" gets the HEX tooltip and is rewritten as "AB C". */
  lemma HexExample()
    ensures Validate(HEX, "ABC") == Check("AB C", HexTooltip)
  {
    HexLongTokenExample();
    HexRegroupExample("ABC");
  }
}
