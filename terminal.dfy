/** The terminal page (terminal_widget.py): drag-and-drop reordering of
    the send-sequence and trigger tables, the trigger on/off toggle, and
    `append_ansi_text`, which writes text carrying ANSI SGR sequences
    (section 8.3.117 of ECMA-48) into the display as runs of one style. */
module Terminal {
  import opened Text
  import opened Store
  import opened Wrappers
  import opened Lists
  import ReceiveSequences
  import SendSequences

  // ---------------------------------------------------------------------
  // Styles
  // ---------------------------------------------------------------------

  /** A colour of the colour maps, or the base colour of the widget's
      palette, which the default format uses as its background. */
  datatype Colour = Rgb(hex: string) | PaletteBase

  /** The parts of a `QTextCharFormat` the escapes change; the font
      family is always Consolas. */
  datatype Style = Style(fg: Colour, bg: Colour, bold: bool)

  /** `create_default_format()` */
  const Default: Style := Style(Rgb("#c7c7c7"), PaletteBase, false)

  /** `ANSI_FG_COLOR_MAP` */
  const FgColours: map<nat, string> := map[
    30 := "#000000", 31 := "#c91b00", 32 := "#00c200", 33 := "#c7c400",
    34 := "#2222ee", 35 := "#c930c7", 36 := "#00c5c7", 37 := "#c7c7c7",
    90 := "#686868", 91 := "#ff6c60", 92 := "#a8ff60", 93 := "#ffffb6",
    94 := "#96cbfe", 95 := "#ff73fd", 96 := "#5ffdff", 97 := "#ffffff"]

  /** `ANSI_BG_COLOR_MAP` */
  const BgColours: map<nat, string> := map[
    40 := "#000000", 41 := "#c91b00", 42 := "#00c200", 43 := "#c7c400",
    44 := "#2222ee", 45 := "#c930c7", 46 := "#00c5c7", 47 := "#c7c7c7",
    100 := "#686868", 101 := "#ff6c60", 102 := "#a8ff60", 103 := "#ffffb6",
    104 := "#96cbfe", 105 := "#ff73fd", 106 := "#5ffdff", 107 := "#ffffff"]

  /** One SGR code: 0 resets every attribute to the default format, 1 sets
      bold, 30-37 and 90-97 set the text colour, 40-47 and 100-107 set the
      background, and every other code leaves the style as it was. */
  function ApplyCode(s: Style, code: nat): (r: Style)
    ensures code == 0 ==> r == Default
    ensures code == 1 ==> r == s.(bold := true)
    ensures 30 <= code <= 37 || 90 <= code <= 97 ==> r.bg == s.bg && r.bold == s.bold && r.fg.Rgb?
    ensures 40 <= code <= 47 || 100 <= code <= 107 ==> r.fg == s.fg && r.bold == s.bold && r.bg.Rgb?
    ensures code !in {0, 1} && !(30 <= code <= 37 || 90 <= code <= 97 || 40 <= code <= 47 || 100 <= code <= 107)
            ==> r == s
  {
    if code == 0 then Default
    else if code == 1 then s.(bold := true)
    else if code in FgColours then s.(fg := Rgb(FgColours[code]))
    else if code in BgColours then s.(bg := Rgb(BgColours[code]))
    else s
  }

  /** `int(code_str)` for a code of the `[0-9;]*` parameter run, which
      holds only ASCII digits. Unlike `Codec.DigitsValue` it asks nothing
      of its argument (no base, no digit precondition), so that rendering
      stays total over any split of the parameters. */
  function SgrCodeValue(s: string): nat {
    if s == [] then 0
    else
      var d := s[|s| - 1] as int - '0' as int;
      SgrCodeValue(s[..|s| - 1]) * 10 + (if 0 <= d <= 9 then d else 0)
  }

  /** `s.split(sep)`: the pieces between separators, empty ones included;
      the empty string gives one empty piece. */
  function SplitOn(s: string, sep: char): (pieces: seq<string>)
    ensures |pieces| >= 1
    decreases |s|
  {
    if s == [] then [""]
    else
      var rest := SplitOn(s[1..], sep);
      if s[0] == sep then [""] + rest
      else [[s[0]] + rest[0]] + rest[1..]
  }

  /** The pieces hold no separator. */
  lemma {:induction false} SplitOnPieces(s: string, sep: char)
    ensures forall i | 0 <= i < |SplitOn(s, sep)| :: sep !in SplitOn(s, sep)[i]
    decreases |s|
  {
    if s != [] {
      var rest := SplitOn(s[1..], sep);
      SplitOnPieces(s[1..], sep);
      var ps := SplitOn(s, sep);
      forall i | 0 <= i < |ps| ensures sep !in ps[i] {
        if s[0] == sep {
          if i > 0 {
            assert ps[i] == rest[i - 1];
          }
        } else if i == 0 {
          assert ps[0] == [s[0]] + rest[0];
        } else {
          assert ps[i] == rest[i];
        }
      }
    }
  }

  /** Joined back with the separator the pieces give the string:
      `sep.join(s.split(sep)) == s`. */
  lemma {:induction false} SplitOnJoin(s: string, sep: char)
    ensures Join(SplitOn(s, sep), sep) == s
    decreases |s|
  {
    if s != [] {
      var rest := SplitOn(s[1..], sep);
      SplitOnJoin(s[1..], sep);
      if s[0] == sep {
        JoinCons("", rest, sep);
      } else if |rest| == 1 {
        assert SplitOn(s, sep) == [[s[0]] + rest[0]];
      } else {
        HeadTail(rest);
        JoinCons(rest[0], rest[1..], sep);
        JoinCons([s[0]] + rest[0], rest[1..], sep);
      }
    }
  }

  /** A string without the separator is one piece. */
  lemma {:induction false} SplitOnNoSep(s: string, sep: char)
    requires sep !in s
    ensures SplitOn(s, sep) == [s]
    decreases |s|
  {
    if s != [] {
      SplitOnNoSep(s[1..], sep);
      assert [s[0]] + s[1..] == s;
    }
  }

  /** The pieces put back together with `sep` between them. */
  function Join(pieces: seq<string>, sep: char): string {
    if pieces == [] then []
    else if |pieces| == 1 then pieces[0]
    else pieces[0] + [sep] + Join(pieces[1..], sep)
  }

  lemma JoinCons(head: string, tail: seq<string>, sep: char)
    requires tail != []
    ensures Join([head] + tail, sep) == head + [sep] + Join(tail, sep)
  {
    assert ([head] + tail)[1..] == tail;
  }

  /** Every piece is empty: Python's `not any(codes)`. */
  predicate AllEmpty(codes: seq<string>) {
    forall i | 0 <= i < |codes| :: codes[i] == ""
  }

  /** The parameter list of one escape, as the loop reads it: an all-empty
      list stands for a single 0. */
  function Codes(params: string): seq<string> {
    var codes := SplitOn(params, ';');
    if AllEmpty(codes) then ["0"] else codes
  }

  /** The codes applied in order; empty ones are skipped. */
  function ApplyCodes(s: Style, codes: seq<string>): Style {
    if codes == [] then s
    else
      var before := ApplyCodes(s, codes[..|codes| - 1]);
      var c := codes[|codes| - 1];
      if c == "" then before else ApplyCode(before, SgrCodeValue(c))
  }

  /** The inner loop of `append_ansi_text`: each non-empty code is
      applied in turn. */
  method ApplyAll(s: Style, codes: seq<string>) returns (r: Style)
    ensures r == ApplyCodes(s, codes)
  {
    r := s;
    var i := 0;
    while i < |codes|
      invariant 0 <= i <= |codes|
      invariant r == ApplyCodes(s, codes[..i])
    {
      assert codes[..i + 1][..i] == codes[..i];
      if codes[i] != "" {
        r := ApplyCode(r, SgrCodeValue(codes[i]));
      }
      i := i + 1;
    }
    assert codes[..i] == codes;
  }

  /** The style after one escape sequence with parameters `params`. */
  function ApplyParams(s: Style, params: string): Style {
    ApplyCodes(s, Codes(params))
  }

  /** `ESC[m`, `ESC[;m`, `ESC[;;m` ... reset the style. */
  lemma EmptyParamsReset(s: Style, params: string)
    requires forall i | 0 <= i < |params| :: params[i] == ';'
    ensures ApplyParams(s, params) == Default
  {
    SplitOfSeparators(params);
    assert ["0"][..0] == [];
  }

  lemma {:induction false} SplitOfSeparators(params: string)
    requires forall i | 0 <= i < |params| :: params[i] == ';'
    ensures AllEmpty(SplitOn(params, ';'))
    decreases |params|
  {
    if params != [] {
      SplitOfSeparators(params[1..]);
    }
  }

  /** After a reset the style no longer depends on what came before it. */
  lemma {:induction false} ResetForgets(s1: Style, s2: Style, codes: seq<string>)
    ensures ApplyCodes(s1, ["0"] + codes) == ApplyCodes(s2, ["0"] + codes)
    decreases |codes|
  {
    if codes == [] {
      assert (["0"] + codes)[..0] == [];
    } else {
      var n := |codes|;
      assert (["0"] + codes)[..n] == ["0"] + codes[..n - 1];
      ResetForgets(s1, s2, codes[..n - 1]);
    }
  }

  // ---------------------------------------------------------------------
  // Scanning for escape sequences
  // ---------------------------------------------------------------------

  const Esc: char := '\U{1B}'

  /** A character of the `[0-9;]` class. */
  predicate IsParamChar(c: char) {
    '0' <= c <= '9' || c == ';'
  }

  /** The end of the run of parameter characters starting at `q`. */
  function ParamEnd(text: string, q: nat): (r: nat)
    requires q <= |text|
    ensures q <= r <= |text|
    decreases |text| - q
  {
    if q == |text| || !IsParamChar(text[q]) then q else ParamEnd(text, q + 1)
  }

  /** The run is the longest one: every character in it is of the class,
      and the one after it, if any, is not. */
  lemma {:induction false} ParamEndSpec(text: string, q: nat)
    requires q <= |text|
    ensures forall i | q <= i < ParamEnd(text, q) :: IsParamChar(text[i])
    ensures ParamEnd(text, q) < |text| ==> !IsParamChar(text[ParamEnd(text, q)])
    decreases |text| - q
  {
    if q < |text| && IsParamChar(text[q]) {
      ParamEndSpec(text, q + 1);
    }
  }

  /** A run of the class that stops before a character outside it is
      the run `ParamEnd` finds. */
  lemma {:induction false} ParamEndUnique(text: string, q: nat, r: nat)
    requires q <= r < |text|
    requires forall i | q <= i < r :: IsParamChar(text[i])
    requires !IsParamChar(text[r])
    ensures ParamEnd(text, q) == r
    decreases r - q
  {
    if q < r {
      assert IsParamChar(text[q]);
      ParamEndUnique(text, q + 1, r);
    }
  }

  /** Where a match of `\x1b\[([0-9;]*)m` starting at `p` ends, if one
      does. The class cannot hold an `m`, so the greedy run is the only
      candidate. */
  function MatchAt(text: string, p: nat): (r: Option<nat>)
    requires p <= |text|
    ensures r.Some? ==> p + 3 <= r.value <= |text|
  {
    if p + 2 <= |text| && text[p] == Esc && text[p + 1] == '[' then
      var q := ParamEnd(text, p + 2);
      if q < |text| && text[q] == 'm' then Some(q + 1) else None
    else None
  }

  /** `text[p..e]` is a match exactly when it is ESC, `[`, characters of
      `[0-9;]` and a final `m`. */
  lemma MatchAtSpec(text: string, p: nat, e: nat)
    requires p <= |text|
    ensures MatchAt(text, p) == Some(e) <==>
      && p + 3 <= e <= |text|
      && text[p] == Esc && text[p + 1] == '['
      && (forall i | p + 2 <= i < e - 1 :: IsParamChar(text[i]))
      && text[e - 1] == 'm'
  {
    if p + 2 <= |text| {
      ParamEndSpec(text, p + 2);
    }
    if && p + 3 <= e <= |text|
       && text[p] == Esc && text[p + 1] == '['
       && (forall i | p + 2 <= i < e - 1 :: IsParamChar(text[i]))
       && text[e - 1] == 'm'
    {
      ParamEndUnique(text, p + 2, e - 1);
    }
  }

  /** The next match of `re.finditer` from `pos`, as (start, end). */
  function NextMatch(text: string, pos: nat): (r: Option<(nat, nat)>)
    requires pos <= |text|
    ensures r.Some? ==> pos <= r.value.0 && r.value.0 + 3 <= r.value.1 <= |text|
    decreases |text| - pos
  {
    if MatchAt(text, pos).Some? then Some((pos, MatchAt(text, pos).value))
    else if pos == |text| then None
    else NextMatch(text, pos + 1)
  }

  /** The match found is the leftmost one: none starts between `pos` and
      it, and when there is none, none starts anywhere from `pos` on. */
  lemma {:induction false} NextMatchLeftmost(text: string, pos: nat)
    requires pos <= |text|
    ensures NextMatch(text, pos).Some? ==>
      && MatchAt(text, NextMatch(text, pos).value.0) == Some(NextMatch(text, pos).value.1)
      && forall i | pos <= i < NextMatch(text, pos).value.0 :: MatchAt(text, i).None?
    ensures NextMatch(text, pos).None? ==> forall i | pos <= i <= |text| :: MatchAt(text, i).None?
    decreases |text| - pos
  {
    if MatchAt(text, pos).None? && pos < |text| {
      NextMatchLeftmost(text, pos + 1);
    }
  }

  /** The input cut where `re.finditer` finds its matches: text between
      matches, and the parameters of each match. */
  datatype Piece = Plain(chars: string) | Sgr(params: string)

  /** `text[pos..]` cut into pieces; text before a match is a piece only
      when it is not empty, the text after the last match always is. */
  function Pieces(text: string, pos: nat): seq<Piece>
    requires pos <= |text|
    decreases |text| - pos
  {
    match NextMatch(text, pos)
    case None => [Plain(text[pos..])]
    case Some((start, end)) =>
      (if start > pos then [Plain(text[pos..start])] else [])
      + [Sgr(text[start + 2..end - 1])] + Pieces(text, end)
  }

  /** Text inserted with one format. */
  datatype Run = Run(text: string, style: Style)

  /** The pieces inserted from format `s` on: plain text in the format so
      far, each escape's codes applied to it. */
  function Paint(pieces: seq<Piece>, s: Style): seq<Run> {
    if pieces == [] then []
    else match pieces[0]
      case Plain(t) => [Run(t, s)] + Paint(pieces[1..], s)
      case Sgr(params) => Paint(pieces[1..], ApplyParams(s, params))
  }

  /** What `append_ansi_text` inserts: each call starts from the default
      format. */
  function Render(text: string): seq<Run> {
    Paint(Pieces(text, 0), Default)
  }

  /** The texts of the runs, one after the other. */
  function Texts(runs: seq<Run>): string {
    if runs == [] then [] else runs[0].text + Texts(runs[1..])
  }

  /** The plain text of the pieces, one after the other. */
  function PlainText(pieces: seq<Piece>): string {
    if pieces == [] then []
    else (if pieces[0].Plain? then pieces[0].chars else []) + PlainText(pieces[1..])
  }

  /** `text[p..]` with every escape sequence removed, read one character
      at a time. */
  function Visible(text: string, p: nat): string
    requires p <= |text|
    decreases |text| - p
  {
    if p == |text| then []
    else match MatchAt(text, p)
      case Some(e) => Visible(text, e)
      case None => [text[p]] + Visible(text, p + 1)
  }

  lemma {:induction false} PlainTextAppend(a: seq<Piece>, b: seq<Piece>)
    ensures PlainText(a + b) == PlainText(a) + PlainText(b)
    decreases |a|
  {
    if a == [] {
      assert a + b == b;
    } else {
      assert (a + b)[1..] == a[1..] + b;
      PlainTextAppend(a[1..], b);
    }
  }

  /** Formats change no text: the runs spell the plain pieces. */
  lemma {:induction false} PaintKeepsText(pieces: seq<Piece>, s: Style)
    ensures Texts(Paint(pieces, s)) == PlainText(pieces)
    decreases |pieces|
  {
    if pieces != [] {
      match pieces[0]
      case Plain(t) =>
        PaintKeepsText(pieces[1..], s);
        var rest := Paint(pieces[1..], s);
        assert ([Run(t, s)] + rest)[1..] == rest;
      case Sgr(params) =>
        PaintKeepsText(pieces[1..], ApplyParams(s, params));
    }
  }

  /** Up to the next match the characters show as they are. */
  lemma {:induction false} VisibleUntil(text: string, p: nat)
    requires p <= |text|
    ensures NextMatch(text, p).None? ==> Visible(text, p) == text[p..]
    ensures NextMatch(text, p).Some? ==>
      Visible(text, p) == text[p..NextMatch(text, p).value.0] + Visible(text, NextMatch(text, p).value.1)
    decreases |text| - p
  {
    match MatchAt(text, p)
    case Some(e) =>
      EmptyPrefix(text[p..p], Visible(text, e));
    case None =>
      if p < |text| {
        VisibleUntil(text, p + 1);
        var v := Visible(text, p + 1);
        assert Visible(text, p) == [text[p]] + v;
        match NextMatch(text, p + 1)
        case None =>
          ConsSlice(text, p, |text|);
          assert text[p..|text|] == text[p..] && text[p + 1..|text|] == text[p + 1..];
        case Some((start, end)) =>
          ConsSlice(text, p, start);
          Regroup([text[p]], text[p + 1..start], Visible(text, end));
      }
  }

  /** An element in front of the slice after it makes the slice from it. */
  lemma ConsSlice<T>(s: seq<T>, p: nat, q: nat)
    requires p < q <= |s|
    ensures [s[p]] + s[p + 1..q] == s[p..q]
  {
  }

  /** One match's worth of pieces: the text before it, then the pieces
      after it. */
  lemma PlainStep(text: string, pos: nat, start: nat, end: nat)
    requires pos <= |text|
    requires NextMatch(text, pos) == Some((start, end))
    ensures PlainText(Pieces(text, pos)) == text[pos..start] + PlainText(Pieces(text, end))
  {
    var params := text[start + 2..end - 1];
    var rest := Pieces(text, end);
    PiecesStep(text, pos, start, end);
    PlainTextSgr(params, rest);
    if start > pos {
      PlainTextPlain(text[pos..start], [Sgr(params)] + rest);
    } else {
      EmptyPrefix(text[pos..start], PlainText(rest));
    }
  }

  /** `Pieces` unfolded once at a match. */
  lemma PiecesStep(text: string, pos: nat, start: nat, end: nat)
    requires pos <= |text|
    requires NextMatch(text, pos) == Some((start, end))
    ensures start > pos ==>
      Pieces(text, pos) == [Plain(text[pos..start])] + ([Sgr(text[start + 2..end - 1])] + Pieces(text, end))
    ensures start == pos ==> Pieces(text, pos) == [Sgr(text[start + 2..end - 1])] + Pieces(text, end)
  {
  }

  /** An escape's piece adds no text. */
  lemma PlainTextSgr(params: string, rest: seq<Piece>)
    ensures PlainText([Sgr(params)] + rest) == PlainText(rest)
  {
    assert ([Sgr(params)] + rest)[1..] == rest;
    EmptyPrefix([], PlainText(rest));
  }

  /** A plain piece puts its text in front. */
  lemma PlainTextPlain(t: string, rest: seq<Piece>)
    ensures PlainText([Plain(t)] + rest) == t + PlainText(rest)
  {
    assert ([Plain(t)] + rest)[1..] == rest;
  }

  /** The cutting loses and adds no character outside the matches. */
  lemma {:induction false} PiecesKeepText(text: string, pos: nat)
    requires pos <= |text|
    ensures PlainText(Pieces(text, pos)) == Visible(text, pos)
    decreases |text| - pos
  {
    VisibleUntil(text, pos);
    match NextMatch(text, pos)
    case None =>
      assert PlainText([Plain(text[pos..])]) == text[pos..] + PlainText([]);
    case Some((start, end)) =>
      PlainStep(text, pos, start, end);
      PiecesKeepText(text, end);
  }

  /** Text outside the escape sequences reaches the display in order and
      unchanged: the runs spell the input with every `ESC[...m` removed. */
  lemma RenderShowsVisible(text: string)
    ensures Texts(Render(text)) == Visible(text, 0)
  {
    PaintKeepsText(Pieces(text, 0), Default);
    PiecesKeepText(text, 0);
  }

  /** One turn of the loop: the text before the match in the current
      format, then the rest from the format the match's codes give. */
  lemma PaintStep(text: string, pos: nat, start: nat, end: nat, s: Style)
    requires pos <= |text|
    requires NextMatch(text, pos) == Some((start, end))
    ensures Paint(Pieces(text, pos), s)
      == (if start > pos then [Run(text[pos..start], s)] else [])
         + Paint(Pieces(text, end), ApplyParams(s, text[start + 2..end - 1]))
  {
    var params := text[start + 2..end - 1];
    var rest := Pieces(text, end);
    PiecesStep(text, pos, start, end);
    PaintSgr(params, rest, s);
    if start > pos {
      PaintPlain(text[pos..start], [Sgr(params)] + rest, s);
    } else {
      EmptyPrefix([], Paint(rest, ApplyParams(s, params)));
    }
  }

  /** An escape's piece changes the format of what follows. */
  lemma PaintSgr(params: string, rest: seq<Piece>, s: Style)
    ensures Paint([Sgr(params)] + rest, s) == Paint(rest, ApplyParams(s, params))
  {
    assert ([Sgr(params)] + rest)[1..] == rest;
  }

  /** A plain piece becomes a run in the current format. */
  lemma PaintPlain(t: string, rest: seq<Piece>, s: Style)
    ensures Paint([Plain(t)] + rest, s) == [Run(t, s)] + Paint(rest, s)
  {
    assert ([Plain(t)] + rest)[1..] == rest;
  }

  lemma {:induction false} NoEscNoMatch(text: string, pos: nat)
    requires pos <= |text|
    requires Esc !in text
    ensures NextMatch(text, pos).None?
    decreases |text| - pos
  {
    if pos < |text| {
      assert text[pos] != Esc;
      NoEscNoMatch(text, pos + 1);
    }
  }

  /** Text without an ESC character shows as one run in the default
      format. */
  lemma PlainTextOneRun(text: string)
    requires Esc !in text
    ensures Render(text) == [Run(text, Default)]
  {
    NoEscNoMatch(text, 0);
    LastPiece(text, 0, Default);
    assert text[0..] == text;
  }

  /** After the last match, the rest of the text goes in as one run, even
      when it is empty. */
  lemma LastPiece(text: string, pos: nat, s: Style)
    requires pos <= |text|
    requires NextMatch(text, pos).None?
    ensures Paint(Pieces(text, pos), s) == [Run(text[pos..], s)]
  {
    assert Paint([Plain(text[pos..])], s) == [Run(text[pos..], s)] + Paint([], s);
  }

  /** The loop's invariant survives one match: what is inserted before it
      plus what is still to come is the whole rendering. */
  lemma LoopStep(text: string, pos: nat, start: nat, end: nat, s: Style, s': Style,
                 done: seq<Run>, done': seq<Run>, whole: seq<Run>)
    requires pos <= |text|
    requires NextMatch(text, pos) == Some((start, end))
    requires done + Paint(Pieces(text, pos), s) == whole
    requires s' == ApplyParams(s, text[start + 2..end - 1])
    requires done' == done + (if start > pos then [Run(text[pos..start], s)] else [])
    ensures done' + Paint(Pieces(text, end), s') == whole
  {
    var first: seq<Run> := if start > pos then [Run(text[pos..start], s)] else [];
    PaintStep(text, pos, start, end, s);
    Regroup(done, first, Paint(Pieces(text, end), s'));
  }

  /** `ESC[1;31m` makes text bold and red. */
  lemma BoldRedCodes()
    ensures ApplyParams(Default, "1;31") == Style(Rgb("#c91b00"), PaletteBase, true)
  {
    assert "1;31"[1..] == ";31" && ";31"[1..] == "31";
    SplitOnNoSep("31", ';');
    assert SplitOn(";31", ';') == ["", "31"];
    assert ["", "31"][1..] == ["31"] && ['1'] + "" == "1";
    assert SplitOn("1;31", ';') == ["1", "31"];
    assert ["1", "31"][..1] == ["1"];
    assert ["1"][..0] == [];
    assert SgrCodeValue("31") == 31;
  }

  /** `ESC[0m` puts the default format back. */
  lemma ResetCode(s: Style)
    ensures ApplyParams(s, "0") == Default
  {
    SplitOnNoSep("0", ';');
    assert ["0"][..0] == [];
  }

  /** The matches of the example: one at 0..7, one at 8..12. */
  lemma BoldRedPieces(text: string)
    requires text == [Esc] + "[1;31mA" + [Esc] + "[0mB"
    ensures Pieces(text, 0) == [Sgr("1;31"), Plain("A"), Sgr("0"), Plain("B")]
  {
    MatchAtSpec(text, 0, 7);
    MatchAtSpec(text, 8, 12);
    assert MatchAt(text, 7).None?;
    assert NextMatch(text, 12).None?;
    assert NextMatch(text, 7) == Some((8, 12));
    assert NextMatch(text, 0) == Some((0, 7));
    assert text[2..6] == "1;31" && text[7..8] == "A" && text[10..11] == "0" && text[12..] == "B";
    assert Pieces(text, 12) == [Plain("B")];
    assert Pieces(text, 7) == [Plain("A"), Sgr("0"), Plain("B")];
  }

  /** Bold red, then a reset: "A" in bold red, "B" in the default format. */
  lemma BoldRedThenReset()
    ensures Render([Esc] + "[1;31mA" + [Esc] + "[0mB")
      == [Run("A", Style(Rgb("#c91b00"), PaletteBase, true)), Run("B", Default)]
  {
    var text := [Esc] + "[1;31mA" + [Esc] + "[0mB";
    BoldRedPieces(text);
    BoldRedPaint(Pieces(text, 0));
  }

  /** The formats the example's pieces are painted in. */
  lemma BoldRedPaint(pieces: seq<Piece>)
    requires pieces == [Sgr("1;31"), Plain("A"), Sgr("0"), Plain("B")]
    ensures Paint(pieces, Default) == [Run("A", Style(Rgb("#c91b00"), PaletteBase, true)), Run("B", Default)]
  {
    var red := Style(Rgb("#c91b00"), PaletteBase, true);
    BoldRedCodes();
    ResetCode(red);
    var last: seq<Piece> := [Plain("B")];
    var reset := [Sgr("0")] + last;
    var afterRed := [Plain("A")] + reset;
    assert pieces == [Sgr("1;31")] + afterRed;
    PaintSgr("1;31", afterRed, Default);
    PaintPlain("A", reset, red);
    PaintSgr("0", last, red);
    PaintPlain("B", [], Default);
    assert [Plain("B")] + [] == last;
  }

  // ---------------------------------------------------------------------
  // The widget
  // ---------------------------------------------------------------------

  /** Which table a drag-and-drop happened in. */
  datatype Table = SendTable | TriggerTable

  /** `not rule.get('enabled', True)` written back into row `row`; any
      other row index changes nothing. */
  function Toggled(rules: seq<ReceiveSequences.Rule>, row: int): (r: seq<ReceiveSequences.Rule>)
    ensures |r| == |rules|
    ensures forall i | 0 <= i < |rules| && i != row :: r[i] == rules[i]
    ensures 0 <= row < |rules| ==>
      && ReceiveSequences.Enabled(r[row]) == !ReceiveSequences.Enabled(rules[row])
      && r[row].enabled.Some?
      && r[row] == rules[row].(enabled := r[row].enabled)
  {
    if 0 <= row < |rules| then
      ReplaceAt(rules, row, rules[row].(enabled := Some(!ReceiveSequences.Enabled(rules[row]))))
    else rules
  }

  /** Two rule lists whose rules fire on `data` alike, with the same
      responses, answer alike. */
  lemma {:induction false} FirstResponseAgrees(a: seq<ReceiveSequences.Rule>, b: seq<ReceiveSequences.Rule>, data: seq<Byte>)
    requires |a| == |b|
    requires forall i | 0 <= i < |a| ::
      (ReceiveSequences.Fires(a[i], data) <==> ReceiveSequences.Fires(b[i], data))
      && ReceiveSequences.ResponseOf(a[i]) == ReceiveSequences.ResponseOf(b[i])
    ensures ReceiveSequences.FirstResponse(a, data) == ReceiveSequences.FirstResponse(b, data)
  {
    if a != [] {
      assert ReceiveSequences.Fires(a[0], data) <==> ReceiveSequences.Fires(b[0], data);
      assert ReceiveSequences.ResponseOf(a[0]) == ReceiveSequences.ResponseOf(b[0]);
      assert forall i | 0 <= i < |a[1..]| :: a[1..][i] == a[i + 1] && b[1..][i] == b[i + 1];
      FirstResponseAgrees(a[1..], b[1..], data);
    }
  }

  /** A toggled rule fires exactly when it was disabled and its trigger
      matches; the auto-responder's answers for the other rows are as
      before. */
  lemma ToggledFires(rules: seq<ReceiveSequences.Rule>, row: nat, data: seq<Byte>)
    requires row < |rules|
    ensures var r := Toggled(rules, row)[row];
      ReceiveSequences.Fires(r, data) <==>
        !ReceiveSequences.Enabled(rules[row])
        && ReceiveSequences.Match(data, Get(rules[row].trigger, ""), Get(rules[row].mode, "ASCII"))
    ensures ReceiveSequences.ResponseOf(Toggled(rules, row)[row]) == ReceiveSequences.ResponseOf(rules[row])
  {
  }

  /** Clicking the switch twice gives back the auto-responder it started
      with, whatever arrives. */
  lemma ToggleTwice(rules: seq<ReceiveSequences.Rule>, row: int, data: seq<Byte>)
    ensures ReceiveSequences.FirstResponse(Toggled(Toggled(rules, row), row), data)
      == ReceiveSequences.FirstResponse(rules, data)
  {
    var twice := Toggled(Toggled(rules, row), row);
    forall i | 0 <= i < |rules|
      ensures (ReceiveSequences.Fires(twice[i], data) <==> ReceiveSequences.Fires(rules[i], data))
        && ReceiveSequences.ResponseOf(twice[i]) == ReceiveSequences.ResponseOf(rules[i])
    {
      if i == row {
        assert ReceiveSequences.Enabled(twice[i]) == ReceiveSequences.Enabled(rules[i]);
        assert twice[i] == rules[i].(enabled := twice[i].enabled);
      }
    }
    FirstResponseAgrees(twice, rules, data);
  }

  class TerminalWidget {
    const sendManager: SendSequences.SendSequenceManager
    const receiveManager: ReceiveSequences.ReceiveSequenceManager
    /** What `terminal_display` holds, run by run. */
    var display: seq<Run>

    constructor(send: SendSequences.SendSequenceManager, receive: ReceiveSequences.ReceiveSequenceManager)
      ensures sendManager == send && receiveManager == receive && display == []
    {
      sendManager := send;
      receiveManager := receive;
      display := [];
    }

    /** `handle_rows_moved`: the row dragged from `source` to `dest` is
        popped from the manager's own list and inserted where it lands,
        without saving. A `source` past the end makes `pop` raise and
        nothing changes. */
    method HandleRowsMoved(table: Table, source: nat, dest: nat) returns (raised: bool)
      modifies sendManager, receiveManager
      ensures table == SendTable ==>
        && (raised <==> MoveRow(old(sendManager.sequences), source, dest).None?)
        && sendManager.sequences == (if raised then old(sendManager.sequences)
                                     else MoveRow(old(sendManager.sequences), source, dest).value)
        && unchanged(receiveManager)
      ensures table == TriggerTable ==>
        && (raised <==> MoveRow(old(receiveManager.rules), source, dest).None?)
        && receiveManager.rules == (if raised then old(receiveManager.rules)
                                    else MoveRow(old(receiveManager.rules), source, dest).value)
        && unchanged(sendManager)
      ensures sendManager.files == old(sendManager.files)
      ensures sendManager.currentFilePath == old(sendManager.currentFilePath)
      ensures receiveManager.files == old(receiveManager.files)
      ensures receiveManager.currentFilePath == old(receiveManager.currentFilePath)
    {
      if table == SendTable {
        var moved := MoveRow(sendManager.sequences, source, dest);
        if moved.None? {
          return true;
        }
        sendManager.sequences := moved.value;
      } else {
        var moved := MoveRow(receiveManager.rules, source, dest);
        if moved.None? {
          return true;
        }
        receiveManager.rules := moved.value;
      }
      return false;
    }

    /** `toggle_trigger_state`: a row inside the list has its `enabled`
        flag flipped and the current file is saved; any other row index
        does nothing. */
    method ToggleTriggerState(row: int, writable: bool)
      modifies receiveManager
      ensures receiveManager.rules == Toggled(old(receiveManager.rules), row)
      ensures receiveManager.currentFilePath == old(receiveManager.currentFilePath)
      ensures receiveManager.files ==
        if 0 <= row < |old(receiveManager.rules)| then receiveManager.Saved(old(receiveManager.files), writable)
        else old(receiveManager.files)
    {
      var rules := receiveManager.rules;
      if 0 <= row < |rules| {
        receiveManager.rules := Toggled(rules, row);
        var _ := receiveManager.SaveCurrentFile(writable);
      }
    }

    /** `append_ansi_text`: walks the matches of `\x1b\[([0-9;]*)m`
        left to right, inserting the text before each in the current
        format and then applying its codes, and ends by inserting the
        rest of the text. */
    method AppendAnsiText(text: string)
      modifies this
      ensures display == old(display) + Render(text)
    {
      var style := Default;
      var pos: nat := 0;
      ghost var done: seq<Run> := [];
      ghost var whole := Render(text);
      var m := NextMatch(text, 0);
      while m.Some?
        invariant pos <= |text| && m == NextMatch(text, pos)
        invariant display == old(display) + done
        invariant done + Paint(Pieces(text, pos), style) == whole
        decreases |text| - pos
      {
        var (start, end) := m.value;
        var params := text[start + 2..end - 1];
        ghost var before, doneBefore := style, done;
        if start > pos {
          var run := [Run(text[pos..start], style)];
          Regroup(old(display), done, run);
          display := display + run;
          done := done + run;
        }
        var codes := SplitOn(params, ';');
        if AllEmpty(codes) {
          codes := ["0"];
        }
        style := ApplyAll(style, codes);
        LoopStep(text, pos, start, end, before, style, doneBefore, done, whole);
        pos := end;
        m := NextMatch(text, pos);
      }
      LastPiece(text, pos, style);
      var last := [Run(text[pos..], style)];
      Regroup(old(display), done, last);
      display := display + last;
    }
  }
}
