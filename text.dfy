/** Python string and bytes primitives used by the serial terminal:
    whitespace classes, strip(), split(), splitlines(), replace(), and
    the `in` test on bytes. Each is written to agree with CPython's
    behaviour on the inputs the terminal feeds it. */
module Text {

  /** Concatenation regrouped, stated apart so that the pieces are never
      looked into. */
  lemma Regroup<T>(a: seq<T>, b: seq<T>, c: seq<T>)
    ensures a + (b + c) == (a + b) + c
  {
  }

  /** A non-empty sequence is its head followed by its tail. */
  lemma HeadTail<T>(s: seq<T>)
    requires s != []
    ensures [s[0]] + s[1..] == s
  {
  }

  /** Appending leaves the elements already there in place. */
  lemma AppendAt<T>(a: seq<T>, b: seq<T>, i: int)
    requires 0 <= i < |a|
    ensures (a + b)[i] == a[i]
  {
  }

  /** Past the first part, the elements are the second part's. */
  lemma AppendAtRight<T>(a: seq<T>, b: seq<T>, i: int)
    requires |a| <= i < |a| + |b|
    ensures (a + b)[i] == b[i - |a|]
  {
  }

  /** Nothing in front changes nothing. */
  lemma EmptyPrefix<T>(a: seq<T>, b: seq<T>)
    requires a == []
    ensures a + b == b
  {
  }

  /** One byte of the serial stream. */
  type Byte = b: int | 0 <= b < 256

  /** `str.isspace()` for one character (Unicode White_Space plus the
      ASCII separators U+001C..U+001F, as CPython defines it). */
  predicate IsSpace(c: char) {
    ('\t' <= c <= '\r') || ('\U{1C}' <= c <= ' ') || c == '\U{85}' || c == '\U{A0}'
    || c == '\U{1680}' || ('\U{2000}' <= c <= '\U{200A}') || c == '\U{2028}'
    || c == '\U{2029}' || c == '\U{202F}' || c == '\U{205F}' || c == '\U{3000}'
  }

  /** `bytes.isspace()` for one byte: space, \t, \n, \v, \f, \r. */
  predicate IsByteSpace(b: Byte) {
    b == 32 || 9 <= b <= 13
  }

  /** `not b.strip()`: the byte string holds only ASCII whitespace. */
  predicate IsBlankBytes(b: seq<Byte>) {
    forall i | 0 <= i < |b| :: IsByteSpace(b[i])
  }

  /** True when no character of `s` is whitespace. */
  predicate NoSpace(s: string) {
    forall i | 0 <= i < |s| :: !IsSpace(s[i])
  }

  /** `str.lstrip()` */
  function LStrip(s: string): (r: string)
    ensures |r| <= |s| && r == s[|s| - |r|..]
    ensures r == [] || !IsSpace(r[0])
    ensures forall i | 0 <= i < |s| - |r| :: IsSpace(s[i])
  {
    if s != [] && IsSpace(s[0]) then LStrip(s[1..]) else s
  }

  /** `str.rstrip()` */
  function RStrip(s: string): (r: string)
    ensures |r| <= |s| && r == s[..|r|]
    ensures r == [] || !IsSpace(r[|r| - 1])
    ensures forall i | |r| <= i < |s| :: IsSpace(s[i])
  {
    if s != [] && IsSpace(s[|s| - 1]) then RStrip(s[..|s| - 1]) else s
  }

  /** `str.strip()`: whitespace removed from both ends. */
  function Strip(s: string): (r: string)
    ensures |r| <= |s|
    ensures r == [] || (!IsSpace(r[0]) && !IsSpace(r[|r| - 1]))
    decreases |s|
  {
    if s != [] && IsSpace(s[0]) then Strip(s[1..])
    else if s != [] && IsSpace(s[|s| - 1]) then Strip(s[..|s| - 1])
    else s
  }

  /** `r` sits at `k` in `s`, and everything around it is whitespace. */
  predicate Trims(s: string, r: string, k: int) {
    && OccursAt(r, s, k)
    && (forall i | 0 <= i < k :: IsSpace(s[i]))
    && (forall i | k + |r| <= i < |s| :: IsSpace(s[i]))
  }

  /** A leading whitespace character joins what is trimmed on the left. */
  lemma TrimsLeft(s: string, r: string, k: int)
    requires s != [] && IsSpace(s[0]) && Trims(s[1..], r, k)
    ensures Trims(s, r, k + 1)
  {
    assert s[1..][k..k + |r|] == s[k + 1..k + 1 + |r|];
    forall i | 0 <= i < k + 1
      ensures IsSpace(s[i])
    {
      if i > 0 {
        assert s[i] == s[1..][i - 1];
      }
    }
    forall i | k + 1 + |r| <= i < |s|
      ensures IsSpace(s[i])
    {
      assert s[i] == s[1..][i - 1];
    }
  }

  /** A trailing whitespace character joins what is trimmed on the right. */
  lemma TrimsRight(s: string, r: string, k: int)
    requires s != [] && IsSpace(s[|s| - 1]) && Trims(s[..|s| - 1], r, k)
    ensures Trims(s, r, k)
  {
    var p := s[..|s| - 1];
    assert p[k..k + |r|] == s[k..k + |r|];
    forall i | 0 <= i < k
      ensures IsSpace(s[i])
    {
      assert s[i] == p[i];
    }
    forall i | k + |r| <= i < |s|
      ensures IsSpace(s[i])
    {
      if i < |p| {
        assert s[i] == p[i];
      }
    }
  }

  /** What `strip()` keeps is a piece of its argument that neither starts
      nor ends with whitespace (the ensures of `Strip`), and everything it
      drops on either side is whitespace; so it is empty exactly when the
      argument is all whitespace, and whitespace inside the piece stays. */
  lemma {:induction false} StripSpec(s: string)
    ensures exists k :: Trims(s, Strip(s), k)
    ensures Strip(s) == [] <==> forall i | 0 <= i < |s| :: IsSpace(s[i])
    decreases |s|
  {
    var r := Strip(s);
    if s != [] && IsSpace(s[0]) {
      StripSpec(s[1..]);
      var k :| Trims(s[1..], r, k);
      TrimsLeft(s, r, k);
      assert (forall i | 0 <= i < |s| :: IsSpace(s[i])) <==> (forall i | 0 <= i < |s[1..]| :: IsSpace(s[1..][i]));
    } else if s != [] && IsSpace(s[|s| - 1]) {
      var p := s[..|s| - 1];
      StripSpec(p);
      var k :| Trims(p, r, k);
      TrimsRight(s, r, k);
      assert (forall i | 0 <= i < |s| :: IsSpace(s[i])) <==> (forall i | 0 <= i < |p| :: IsSpace(p[i]));
    } else {
      assert Trims(s, r, 0);
    }
  }

  /** Whitespace inside the kept piece stays: `"a b"` strips to itself,
      with its space. */
  lemma StripKeepsInnerSpace()
    ensures Strip(" a b\n") == "a b"
  {
    var s := " a b\n";
    assert Strip(s) == Strip(s[1..]);
    assert s[1..] == "a b\n";
    assert Strip("a b\n") == Strip("a b");
  }

  lemma {:induction false} StripOfStripped(s: string)
    requires s == [] || (!IsSpace(s[0]) && !IsSpace(s[|s| - 1]))
    ensures Strip(s) == s
  {
  }

  /** Length of the maximal whitespace-free prefix of `s`. */
  function WordLen(s: string): (n: nat)
    ensures n <= |s| && NoSpace(s[..n])
    ensures n < |s| ==> IsSpace(s[n])
  {
    if s == [] || IsSpace(s[0]) then 0 else 1 + WordLen(s[1..])
  }

  /** `str.split()` with no separator: the maximal runs of
      non-whitespace, in order. */
  function Words(s: string): (ws: seq<string>)
    ensures forall i | 0 <= i < |ws| :: ws[i] != [] && NoSpace(ws[i])
    decreases |s|
  {
    var t := LStrip(s);
    if t == [] then []
    else
      var n := WordLen(t);
      var rest := Words(t[n..]);
      SplitWordsCons(t[..n], rest);
      [t[..n]] + rest
  }

  /** A whitespace-free, non-empty word in front of such words. */
  lemma SplitWordsCons(w: string, rest: seq<string>)
    requires w != [] && NoSpace(w)
    requires forall i | 0 <= i < |rest| :: rest[i] != [] && NoSpace(rest[i])
    ensures forall i | 0 <= i < |[w] + rest| :: ([w] + rest)[i] != [] && NoSpace(([w] + rest)[i])
  {
    forall i | 0 <= i < |[w] + rest|
      ensures ([w] + rest)[i] != [] && NoSpace(([w] + rest)[i])
    {
      if i > 0 {
        assert ([w] + rest)[i] == rest[i - 1];
      }
    }
  }

  /** `" ".join(ws)` */
  function JoinSpace(ws: seq<string>): string {
    if ws == [] then []
    else if |ws| == 1 then ws[0]
    else ws[0] + " " + JoinSpace(ws[1..])
  }

  lemma {:induction false} WordLenOfWord(w: string, rest: string)
    requires NoSpace(w)
    requires rest == [] || IsSpace(rest[0])
    ensures WordLen(w + rest) == |w|
  {
    if w != [] {
      assert (w + rest)[1..] == w[1..] + rest;
      WordLenOfWord(w[1..], rest);
    }
  }

  /** A leading word is split off whole when whitespace (or nothing)
      follows it. */
  lemma {:induction false} WordsCons(w: string, rest: string)
    requires w != [] && NoSpace(w)
    requires rest == [] || IsSpace(rest[0])
    ensures Words(w + rest) == [w] + Words(rest)
  {
    var s := w + rest;
    assert LStrip(s) == s;
    WordLenOfWord(w, rest);
    assert s[..|w|] == w;
    assert s[|w|..] == rest;
  }

  /** Leading whitespace never changes the words. */
  lemma {:induction false} WordsSkipSpace(rest: string)
    ensures Words(" " + rest) == Words(rest)
  {
    assert (" " + rest)[1..] == rest;
    assert LStrip(" " + rest) == LStrip(rest);
  }

  /** Splitting a single-space join of whitespace-free, non-empty words
      gives the words back: `" ".join(ws).split() == ws`. */
  lemma {:induction false} WordsOfJoin(ws: seq<string>)
    requires forall i | 0 <= i < |ws| :: ws[i] != [] && NoSpace(ws[i])
    ensures Words(JoinSpace(ws)) == ws
  {
    if |ws| == 1 {
      WordsOfSingle(ws[0]);
    } else if |ws| > 1 {
      var tail := ws[1..];
      assert forall i | 0 <= i < |tail| :: tail[i] == ws[i + 1];
      WordsOfJoinStep(ws);
      WordsOfJoin(tail);
      HeadTail(ws);
    }
  }

  /** The first word of a join of two or more comes off whole. */
  lemma WordsOfJoinStep(ws: seq<string>)
    requires |ws| > 1 && ws[0] != [] && NoSpace(ws[0])
    ensures Words(JoinSpace(ws)) == [ws[0]] + Words(JoinSpace(ws[1..]))
  {
    var rest := JoinSpace(ws[1..]);
    assert JoinSpace(ws) == ws[0] + (" " + rest);
    WordsCons(ws[0], " " + rest);
    WordsSkipSpace(rest);
  }

  /** A single word splits into itself. */
  lemma WordsOfSingle(w: string)
    requires w != [] && NoSpace(w)
    ensures Words(w) == [w]
  {
    WordsCons(w, []);
    assert w + [] == w;
  }

  /** `str.replace(pat, rep)`: non-overlapping occurrences, left to right. */
  function Replace(s: string, pat: string, rep: string): (r: string)
    requires pat != []
    decreases |s|
  {
    if |s| < |pat| then s
    else if pat <= s then rep + Replace(s[|pat|..], pat, rep)
    else [s[0]] + Replace(s[1..], pat, rep)
  }

  /** A string in which `pat` does not occur is left alone by `replace`. */
  lemma {:induction false} ReplaceAbsent(s: string, pat: string, rep: string)
    requires pat != []
    requires forall i | 0 <= i < |s| :: s[i] != pat[0]
    ensures Replace(s, pat, rep) == s
  {
    if |s| >= |pat| {
      assert s[0] != pat[0];
      assert !(pat <= s);
      ReplaceAbsent(s[1..], pat, rep);
    }
  }

  /** `p` sits in `s` at offset `i`. */
  predicate OccursAt<T(==)>(p: seq<T>, s: seq<T>, i: int) {
    0 <= i <= |s| - |p| && s[i..i + |p|] == p
  }

  /** `p in s` for bytes: `p` occurs as a contiguous run of `s`. */
  function Occurs<T(==)>(p: seq<T>, s: seq<T>): (b: bool)
    ensures b <==> exists i :: OccursAt(p, s, i)
    decreases |s|
  {
    if p <= s then
      assert OccursAt(p, s, 0);
      true
    else if s == [] then false
    else
      OccursShift(p, s);
      Occurs(p, s[1..])
  }

  lemma OccursShift<T>(p: seq<T>, s: seq<T>)
    requires s != [] && !(p <= s)
    ensures (exists i :: OccursAt(p, s, i)) <==> (exists i :: OccursAt(p, s[1..], i))
  {
    if exists i :: OccursAt(p, s, i) {
      var i :| OccursAt(p, s, i);
      assert i != 0;
      assert OccursAt(p, s[1..], i - 1);
    }
    if exists i :: OccursAt(p, s[1..], i) {
      var i :| OccursAt(p, s[1..], i);
      assert OccursAt(p, s, i + 1);
    }
  }

  /** The line boundaries of `str.splitlines()`. */
  predicate IsLineBreak(c: char) {
    c == '\n' || c == '\r' || c == '\U{0B}' || c == '\U{0C}' || c == '\U{1C}' || c == '\U{1D}'
    || c == '\U{1E}' || c == '\U{85}' || c == '\U{2028}' || c == '\U{2029}'
  }

  /** Index of the first line break of `s`, or `|s|` when there is none. */
  function LineEnd(s: string): (n: nat)
    ensures n <= |s| && (n < |s| ==> IsLineBreak(s[n]))
    ensures forall i | 0 <= i < n :: !IsLineBreak(s[i])
  {
    if s == [] || IsLineBreak(s[0]) then 0 else 1 + LineEnd(s[1..])
  }

  /** `str.splitlines()`: lines without their terminators; "\r\n" is one
      terminator and a final terminator does not open an empty line. */
  function SplitLines(s: string): (ls: seq<string>)
    ensures forall i | 0 <= i < |ls| :: forall j | 0 <= j < |ls[i]| :: !IsLineBreak(ls[i][j])
    ensures s == [] <==> ls == []
    decreases |s|
  {
    if s == [] then []
    else
      var n := LineEnd(s);
      if n == |s| then [s]
      else
        var next := if s[n] == '\r' && n + 1 < |s| && s[n + 1] == '\n' then n + 2 else n + 1;
        [s[..n]] + SplitLines(s[next..])
  }

  /** ASCII case folding. For the patterns the terminal looks for
      ("get", "set", "get "), this agrees with Python's `str.lower()`:
      no other character lower-cases to a string holding g, e, t, s or
      a space. */
  function LowerChar(c: char): (r: char)
    ensures ('A' <= c <= 'Z') ==> r as int == c as int + 32
    ensures !('A' <= c <= 'Z') ==> r == c
  {
    if 'A' <= c <= 'Z' then (c as int + 32) as char else c
  }

  function Lower(s: string): (r: string)
    ensures |r| == |s| && forall i | 0 <= i < |s| :: r[i] == LowerChar(s[i])
  {
    if s == [] then [] else [LowerChar(s[0])] + Lower(s[1..])
  }

  /** Every character of `s` satisfies `allowed`. */
  predicate AllIn(s: string, allowed: char -> bool) {
    forall i | 0 <= i < |s| :: allowed(s[i])
  }

  /** `"".join(c for c in s if c in allowed)` */
  function Filter(s: string, allowed: char -> bool): (r: string)
    ensures AllIn(r, allowed) && |r| <= |s|
    ensures AllIn(s, allowed) ==> r == s
  {
    if s == [] then []
    else if allowed(s[0]) then [s[0]] + Filter(s[1..], allowed)
    else Filter(s[1..], allowed)
  }

  /** `s.replace(" ", "")` */
  function DropSpaces(s: string): (r: string)
    ensures |r| <= |s| && forall i | 0 <= i < |r| :: r[i] != ' '
    ensures (forall i | 0 <= i < |s| :: s[i] != ' ') ==> r == s
  {
    if s == [] then []
    else if s[0] == ' ' then DropSpaces(s[1..])
    else [s[0]] + DropSpaces(s[1..])
  }

  lemma {:induction false} DropSpacesAllIn(s: string, allowed: char -> bool)
    requires AllIn(s, allowed)
    ensures AllIn(DropSpaces(s), allowed)
  {
    if s != [] {
      AllInSlice(s, 1, |s|, allowed);
      DropSpacesAllIn(s[1..], allowed);
    }
  }

  /** `"".join(ws)` */
  function Concat(ws: seq<string>): string {
    if ws == [] then [] else ws[0] + Concat(ws[1..])
  }

  lemma {:induction false} DropSpacesAppend(a: string, b: string)
    ensures DropSpaces(a + b) == DropSpaces(a) + DropSpaces(b)
  {
    if a == [] {
      assert a + b == b;
    } else {
      assert (a + b)[0] == a[0];
      assert (a + b)[1..] == a[1..] + b;
      DropSpacesAppend(a[1..], b);
    }
  }

  /** Removing the separators of a single-space join of space-free words
      gives their plain concatenation. */
  lemma {:induction false} DropSpacesOfJoin(ws: seq<string>)
    requires forall i | 0 <= i < |ws| :: forall j | 0 <= j < |ws[i]| :: ws[i][j] != ' '
    ensures DropSpaces(JoinSpace(ws)) == Concat(ws)
  {
    if |ws| == 1 {
      assert Concat(ws) == ws[0] + Concat([]);
    } else if |ws| > 1 {
      DropSpacesOfJoin(ws[1..]);
      DropSpacesAppend(ws[0], " " + JoinSpace(ws[1..]));
      DropSpacesAppend(" ", JoinSpace(ws[1..]));
      assert ws[0] + " " + JoinSpace(ws[1..]) == ws[0] + (" " + JoinSpace(ws[1..]));
    }
  }

  /** A join keeps to an alphabet that holds the space and every word's characters. */
  lemma {:induction false} JoinSpaceAllIn(ws: seq<string>, allowed: char -> bool)
    requires allowed(' ')
    requires forall i | 0 <= i < |ws| :: AllIn(ws[i], allowed)
    ensures AllIn(JoinSpace(ws), allowed)
  {
    if |ws| > 1 {
      JoinSpaceAllIn(ws[1..], allowed);
      var rest := JoinSpace(ws[1..]);
      assert JoinSpace(ws) == ws[0] + " " + rest;
      forall k | 0 <= k < |JoinSpace(ws)| ensures allowed(JoinSpace(ws)[k]) {
        if k > |ws[0]| {
          assert JoinSpace(ws)[k] == rest[k - |ws[0]| - 1];
        }
      }
    }
  }

  /** A slice keeps to the alphabet of the whole. */
  lemma AllInSlice(s: string, i: int, j: int, allowed: char -> bool)
    requires 0 <= i <= j <= |s| && AllIn(s, allowed)
    ensures AllIn(s[i..j], allowed)
  {
    forall k | 0 <= k < j - i ensures allowed(s[i..j][k]) {
      assert s[i..j][k] == s[i + k];
    }
  }

  /** Putting a word in front keeps every word within the alphabet. */
  lemma AllInCons(w: string, ws: seq<string>, allowed: char -> bool)
    requires AllIn(w, allowed) && forall i | 0 <= i < |ws| :: AllIn(ws[i], allowed)
    ensures forall i | 0 <= i < |[w] + ws| :: AllIn(([w] + ws)[i], allowed)
  {
    forall i | 0 <= i < |[w] + ws| ensures AllIn(([w] + ws)[i], allowed) {
      if i > 0 {
        assert ([w] + ws)[i] == ws[i - 1];
      }
    }
  }

  /** The words of a string keep to the string's alphabet. */
  lemma {:induction false} WordsAllIn(s: string, allowed: char -> bool)
    requires AllIn(s, allowed)
    ensures forall i | 0 <= i < |Words(s)| :: AllIn(Words(s)[i], allowed)
    decreases |s|
  {
    var t := LStrip(s);
    AllInSlice(s, |s| - |t|, |s|, allowed);
    if t != [] {
      var n := WordLen(t);
      AllInSlice(t, 0, n, allowed);
      AllInSlice(t, n, |t|, allowed);
      WordsAllIn(t[n..], allowed);
      AllInCons(t[..n], Words(t[n..]), allowed);
    }
  }

  /** `" ".join(s.split())` is a fixed point of itself: splitting it again
      gives the same words. */
  lemma CollapseSpaces(s: string)
    ensures Words(JoinSpace(Words(s))) == Words(s)
  {
    WordsOfJoin(Words(s));
  }
}
