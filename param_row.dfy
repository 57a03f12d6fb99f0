/** One parameter row of the calibrator page (calibrator_widget.py,
    `ParamDef` and `ParamRow`): how a parameter's description becomes a
    row, how the options of a choice parameter are ordered, which of Get
    and Set a row offers, and what its two buttons do. */
module ParamRows {
  import opened Wrappers
  import opened Text
  import Codec
  import opened Calibrator
  import Backend

  // ---------------------------------------------------------------------
  // Ordering the options of a choice parameter
  // ---------------------------------------------------------------------

  /** The value of `sort_key(k)`: `(0, int(k))` when `int` reads the key,
      `(1, k)` when it raises `ValueError`. */
  datatype SortKey = IntKey(v: int) | StrKey(s: string)

  function SortKeyOf(k: string): SortKey {
    match Codec.ParseInt(k, 10)
    case Some(v) => IntKey(v)
    case None => StrKey(k)
  }

  /** Python's `<=` on strings: code point by code point, a proper prefix
      first. */
  predicate StrLe(a: string, b: string) {
    a == [] || (b != [] && (a[0] < b[0] || (a[0] == b[0] && StrLe(a[1..], b[1..]))))
  }

  /** Python's `<=` on the key tuples: the first components decide first,
      so every integer key comes before every other key. */
  predicate KeyLe(x: SortKey, y: SortKey) {
    match (x, y)
    case (IntKey(a), IntKey(b)) => a <= b
    case (IntKey(_), StrKey(_)) => true
    case (StrKey(_), IntKey(_)) => false
    case (StrKey(a), StrKey(b)) => StrLe(a, b)
  }

  /** The order `sorted(..., key=sort_key)` puts the choice keys in. */
  predicate Le(a: string, b: string) {
    KeyLe(SortKeyOf(a), SortKeyOf(b))
  }

  lemma {:induction false} StrLeTotal(a: string, b: string)
    ensures StrLe(a, b) || StrLe(b, a)
  {
    if a != [] && b != [] && a[0] == b[0] {
      StrLeTotal(a[1..], b[1..]);
    }
  }

  lemma {:induction false} StrLeTrans(a: string, b: string, c: string)
    requires StrLe(a, b) && StrLe(b, c)
    ensures StrLe(a, c)
  {
    if a != [] && b != [] && c != [] && a[0] == b[0] && b[0] == c[0] {
      StrLeTrans(a[1..], b[1..], c[1..]);
    }
  }

  lemma {:induction false} StrLeAntisym(a: string, b: string)
    requires StrLe(a, b) && StrLe(b, a)
    ensures a == b
  {
    if a != [] && b != [] {
      StrLeAntisym(a[1..], b[1..]);
      assert a == [a[0]] + a[1..] && b == [b[0]] + b[1..];
    }
  }

  lemma LeTotal(a: string, b: string)
    ensures Le(a, b) || Le(b, a)
  {
    if SortKeyOf(a).StrKey? && SortKeyOf(b).StrKey? {
      StrLeTotal(a, b);
    }
  }

  lemma LeTrans(a: string, b: string, c: string)
    requires Le(a, b) && Le(b, c)
    ensures Le(a, c)
  {
    if SortKeyOf(a).StrKey? && SortKeyOf(c).StrKey? {
      StrLeTrans(a, b, c);
    }
  }

  /** The keys are in non-decreasing `sort_key` order. */
  predicate Sorted(ks: seq<string>) {
    forall i, j | 0 <= i < j < |ks| :: Le(ks[i], ks[j])
  }

  /** Puts `k` before the first key it does not come after, so that of
      two keys with equal sort keys the earlier one stays first. */
  function InsertKey(k: string, ks: seq<string>): seq<string> {
    if ks == [] || Le(k, ks[0]) then [k] + ks else [ks[0]] + InsertKey(k, ks[1..])
  }

  /** `sorted(keys, key=sort_key)`, a stable sort. */
  function SortChoices(ks: seq<string>): seq<string> {
    if ks == [] then [] else InsertKey(ks[0], SortChoices(ks[1..]))
  }

  lemma SortedTail(ks: seq<string>)
    requires ks != [] && Sorted(ks)
    ensures Sorted(ks[1..])
  {
    forall i, j | 0 <= i < j < |ks| - 1
      ensures Le(ks[1..][i], ks[1..][j])
    {
      assert ks[1..][i] == ks[i + 1] && ks[1..][j] == ks[j + 1];
    }
  }

  /** A key placed in front of a sorted list it does not come after. */
  lemma InsertFront(k: string, ks: seq<string>)
    requires ks != [] && Le(k, ks[0]) && Sorted(ks)
    ensures Sorted([k] + ks)
  {
    var r := [k] + ks;
    forall i, j | 0 <= i < j < |r|
      ensures Le(r[i], r[j])
    {
      assert r[j] == ks[j - 1];
      if i == 0 {
        FrontBeforeAll(k, ks, j - 1);
      } else {
        assert r[i] == ks[i - 1];
      }
    }
  }

  /** The key in front comes before every key of the sorted list. */
  lemma FrontBeforeAll(k: string, ks: seq<string>, m: nat)
    requires m < |ks| && Le(k, ks[0]) && Sorted(ks)
    ensures Le(k, ks[m])
  {
    if m > 0 {
      assert Le(ks[0], ks[m]);
      LeTrans(k, ks[0], ks[m]);
    }
  }

  /** A key in front of a sorted list that holds nothing it comes after. */
  lemma KeepFront(x: string, rest: seq<string>)
    requires Sorted(rest)
    requires forall y | y in multiset(rest) :: Le(x, y)
    ensures Sorted([x] + rest)
  {
    var r := [x] + rest;
    forall i, j | 0 <= i < j < |r|
      ensures Le(r[i], r[j])
    {
      if i == 0 {
        assert rest[j - 1] in multiset(rest);
      } else {
        assert r[i] == rest[i - 1] && r[j] == rest[j - 1];
      }
    }
  }

  /** The first key of a sorted list comes before every other key in it. */
  lemma HeadBeforeTail(ks: seq<string>, y: string)
    requires ks != [] && Sorted(ks) && y in multiset(ks[1..])
    ensures Le(ks[0], y)
  {
    var tail := ks[1..];
    assert y in tail;
    var m :| 0 <= m < |tail| && tail[m] == y;
    assert ks[m + 1] == y;
  }

  lemma {:induction false} InsertKeySorted(k: string, ks: seq<string>)
    requires Sorted(ks)
    ensures Sorted(InsertKey(k, ks))
    ensures multiset(InsertKey(k, ks)) == multiset(ks) + multiset{k}
  {
    if ks == [] {
    } else if Le(k, ks[0]) {
      InsertFront(k, ks);
    } else {
      LeTotal(k, ks[0]);
      SortedTail(ks);
      InsertKeySorted(k, ks[1..]);
      var rest := InsertKey(k, ks[1..]);
      forall y | y in multiset(rest)
        ensures Le(ks[0], y)
      {
        if y != k {
          HeadBeforeTail(ks, y);
        }
      }
      KeepFront(ks[0], rest);
      assert ks == [ks[0]] + ks[1..];
    }
  }

  /** The options come out in `sort_key` order and are exactly the keys
      of the choices. */
  lemma {:induction false} SortChoicesSpec(ks: seq<string>)
    ensures Sorted(SortChoices(ks))
    ensures multiset(SortChoices(ks)) == multiset(ks)
  {
    if ks != [] {
      SortChoicesSpec(ks[1..]);
      InsertKeySorted(ks[0], SortChoices(ks[1..]));
      assert ks == [ks[0]] + ks[1..];
    }
  }

  /** In the ordered options, the keys `int` reads come first, by value,
      and the others follow in string order. */
  lemma IntKeysFirst(ks: seq<string>, i: nat, j: nat)
    requires i < j < |SortChoices(ks)|
    ensures var s := SortChoices(ks);
      && (Codec.ParseInt(s[j], 10).Some? ==>
            Codec.ParseInt(s[i], 10).Some? && Codec.ParseInt(s[i], 10).value <= Codec.ParseInt(s[j], 10).value)
      && (Codec.ParseInt(s[i], 10).None? ==> Codec.ParseInt(s[j], 10).None? && StrLe(s[i], s[j]))
  {
    SortChoicesSpec(ks);
  }

  lemma ParseNine()
    ensures Codec.ParseInt("9", 10) == Some(9)
  {
    assert Strip("9") == "9";
    assert Codec.WellFormedDigits("9", 10);
    assert "9"[..0] == [];
  }

  lemma ParseTen()
    ensures Codec.ParseInt("10", 10) == Some(10)
  {
    assert Strip("10") == "10";
    assert Codec.WellFormedDigits("10", 10);
    assert "10"[..1] == "1" && "1"[..0] == [];
  }

  lemma ParseLetter()
    ensures Codec.ParseInt("A", 10) == None
  {
    assert Strip("A") == "A";
    assert !Codec.IsDigitIn('A', 10);
  }

  lemma ExampleKeys()
    ensures SortKeyOf("9") == IntKey(9) && SortKeyOf("10") == IntKey(10) && SortKeyOf("A") == StrKey("A")
  {
    ParseNine();
    ParseTen();
    ParseLetter();
  }

  /** Numeric keys are ordered by value, not as strings, and ahead of the
      other keys: "9" before "10", both before "A". */
  lemma SortExample()
    ensures SortChoices(["A", "10", "9"]) == ["9", "10", "A"]
  {
    ExampleKeys();
    assert SortChoices(["9"]) == ["9"];
    assert ["10", "9"][1..] == ["9"];
    assert SortChoices(["10", "9"]) == InsertKey("10", ["9"]);
    assert InsertKey("10", ["9"]) == ["9", "10"] by {
      assert !Le("10", "9");
      assert InsertKey("10", []) == ["10"];
    }
    assert ["A", "10", "9"][1..] == ["10", "9"];
    assert InsertKey("A", ["9", "10"]) == ["9", "10", "A"] by {
      assert !Le("A", "9") && !Le("A", "10");
      assert ["9", "10"][1..] == ["10"] && ["10"][1..] == [];
    }
  }

  // ---------------------------------------------------------------------
  // Access rights
  // ---------------------------------------------------------------------

  /** `"get" in str(access).strip().lower()`: the Get button is shown. */
  predicate CanGet(access: string) {
    Occurs("get", Lower(Strip(access)))
  }

  /** `"set" in str(access).strip().lower()`: the Set button is shown. */
  predicate CanSet(access: string) {
    Occurs("set", Lower(Strip(access)))
  }

  /** The default access string offers both buttons. */
  lemma AccessGetSet()
    ensures CanGet("getset") && CanSet("getset")
  {
    StripOfStripped("getset");
    assert Lower("getset") == "getset";
    GetSetWord();
  }

  /** A lower-case word without surrounding blanks is its own access
      string: stripping and lower-casing leave it alone. */
  lemma PlainAccess(w: string)
    requires w == "get" || w == "set"
    ensures Lower(Strip(w)) == w
  {
    StripOfStripped(w);
    assert Lower(w) == w;
  }

  /** A read-only parameter offers Get alone. */
  lemma AccessGetOnly()
    ensures CanGet("get") && !CanSet("get")
  {
    PlainAccess("get");
    assert OccursAt("get", "get", 0);
    forall i
      ensures !OccursAt("set", "get", i)
    {
      if i == 0 {
        assert "get"[0] != "set"[0];
        assert "get"[0..3][0] == "get"[0];
      }
    }
  }

  /** A write-only parameter offers Set alone. */
  lemma AccessSetOnly()
    ensures !CanGet("set") && CanSet("set")
  {
    PlainAccess("set");
    assert OccursAt("set", "set", 0);
    forall i
      ensures !OccursAt("get", "set", i)
    {
      if i == 0 {
        assert "set"[0] != "get"[0];
        assert "set"[0..3][0] == "set"[0];
      }
    }
  }

  /** Case and surrounding blanks are ignored. */
  lemma AccessIgnoresCase()
    ensures CanGet(" GetSet ") && CanSet(" GetSet ")
  {
    MixedAccess();
    GetSetWord();
  }

  /** The word `getset` holds both `get` and `set`. */
  lemma GetSetWord()
    ensures Occurs("get", "getset") && Occurs("set", "getset")
  {
    assert OccursAt("get", "getset", 0) && OccursAt("set", "getset", 3);
  }

  lemma MixedAccess()
    ensures Lower(Strip(" GetSet ")) == "getset"
  {
    StripExample();
    LowerExample();
  }

  lemma StripExample()
    ensures Strip(" GetSet ") == "GetSet"
  {
    assert " GetSet "[1..] == "GetSet " && "GetSet "[..6] == "GetSet";
    StripOfStripped("GetSet");
  }

  lemma LowerExample()
    ensures Lower("GetSet") == "getset"
  {
    assert "GetSet"[1..] == "etSet" && "etSet"[1..] == "tSet" && "tSet"[1..] == "Set";
    assert "Set"[1..] == "et" && "et"[1..] == "t" && "t"[1..] == [];
  }

  /** A whitespace-free pattern occurs in a string exactly when it occurs
      in the string stripped. */
  lemma OccursStrip(p: string, s: string)
    requires p != [] && NoSpace(p)
    ensures Occurs(p, Strip(s)) == Occurs(p, s)
    decreases |s|
  {
    if s != [] && IsSpace(s[0]) {
      assert !(p <= s);
      OccursShift(p, s);
      OccursStrip(p, s[1..]);
    } else if s != [] && IsSpace(s[|s| - 1]) {
      var t := s[..|s| - 1];
      OccursStrip(p, t);
      if exists i :: OccursAt(p, s, i) {
        var i :| OccursAt(p, s, i);
        assert s[i + |p| - 1] == p[|p| - 1];
        assert i + |p| < |s|;
        assert t[i..i + |p|] == s[i..i + |p|];
        assert OccursAt(p, t, i);
      }
      if exists i :: OccursAt(p, t, i) {
        var i :| OccursAt(p, t, i);
        assert OccursAt(p, s, i);
      }
    }
  }

  /** Lower-casing twice is lower-casing once. */
  lemma LowerTwice(x: string)
    ensures Lower(Lower(x)) == Lower(x)
  {
  }

  /** A lower-cased string stays so once stripped. */
  lemma LowerOfStripped(a: string)
    requires Lower(a) == a
    ensures Lower(Strip(a)) == Strip(a)
  {
    StripSpec(a);
    var k :| Trims(a, Strip(a), k);
    var r := Strip(a);
    forall i | 0 <= i < |r|
      ensures LowerChar(r[i]) == r[i]
    {
      assert r[i] == a[k + i];
      assert Lower(a)[k + i] == LowerChar(a[k + i]);
    }
  }

  /** For an access string the page has lower-cased already, the buttons
      test the same thing as the plain `in` of `_on_set` and of Get All. */
  lemma ButtonsOfLowered(x: string)
    ensures CanGet(Lower(x)) == Occurs("get", Lower(x))
    ensures CanSet(Lower(x)) == Occurs("set", Lower(x))
  {
    OccursLowered("get", x);
    OccursLowered("set", x);
  }

  /** A whitespace-free pattern is found in a lower-cased string exactly
      when it is found in the same string stripped and lower-cased again. */
  lemma OccursLowered(p: string, x: string)
    requires p == "get" || p == "set"
    ensures Occurs(p, Lower(Strip(Lower(x)))) == Occurs(p, Lower(x))
  {
    var a := Lower(x);
    LowerTwice(x);
    LowerOfStripped(a);
    assert NoSpace(p);
    OccursStrip(p, a);
  }

  // ---------------------------------------------------------------------
  // Reading a reply
  // ---------------------------------------------------------------------

  /** `(reply.split()[-1] if reply else "").strip()`; None when the reply
      is not empty but blank, where indexing the empty split raises
      `IndexError`. */
  function PickKey(reply: string): (r: Option<string>)
    ensures r.None? <==> reply != [] && Words(reply) == []
    ensures reply == [] ==> r == Some([])
    ensures r.Some? && reply != [] ==> r.value == Words(reply)[|Words(reply)| - 1]
  {
    if reply == [] then Some(Strip([]))
    else
      var ws := Words(reply);
      if ws == [] then None
      else
        var w := ws[|ws| - 1];
        StripOfStripped(w);
        Some(Strip(w))
  }

  /** A reply of space-separated words selects its last word. */
  lemma PickKeyOfJoin(ws: seq<string>)
    requires ws != []
    requires forall i | 0 <= i < |ws| :: ws[i] != [] && NoSpace(ws[i])
    ensures PickKey(JoinSpace(ws)) == Some(ws[|ws| - 1])
  {
    var reply := JoinSpace(ws);
    WordsOfJoin(ws);
    assert Words([]) == [];
    assert reply != [];
    var r := PickKey(reply);
    assert r.Some? && r.value == Words(reply)[|Words(reply)| - 1];
  }

  // ---------------------------------------------------------------------
  // Parameter descriptions
  // ---------------------------------------------------------------------

  /** Python truthiness of a JSON value. */
  predicate Truthy(j: Json) {
    match j
    case Obj(fields) => fields != []
    case Str(s) => s != []
    case Num(n) => n != 0
    case Bool(b) => b
    case Null => false
    case Arr(items) => items != []
  }

  /** `str(v)`; lists and objects are shown as placeholders. */
  function PyStr(j: Json): string {
    match j
    case Str(s) => s
    case Num(n) => if n < 0 then "-" + Codec.NatToString(-n) else Codec.NatToString(n)
    case Bool(b) => if b then "True" else "False"
    case Null => "None"
    case Arr(_) => "[...]"
    case Obj(_) => "{...}"
  }

  /** `d.get(key, default)` */
  function GetOr(fields: seq<(string, Json)>, key: string, default: Json): Json {
    match Get(fields, key)
    case Some(v) => v
    case None => default
  }

  /** `ParamDef`; `title` is its `label` field and `choices` is `Null` for None. */
  datatype ParamDef = ParamDef(title: Json, ptype: Json, access: string, choices: Json)

  /** The page's reading of one parameter's metadata: the label defaults
      to the key, the type to "text", the access to "getset" and is
      lower-cased, and choices are kept only for a "choice" parameter. */
  function MakeParamDef(key: string, meta: seq<(string, Json)>): (d: ParamDef)
    ensures d.title == (if Get(meta, "label").Some? then Get(meta, "label").value else Str(key))
    ensures d.ptype == (if Get(meta, "type").Some? then Get(meta, "type").value else Str("text"))
    ensures Get(meta, "access").None? ==> d.access == "getset"
    ensures Get(meta, "access").Some? ==> d.access == Lower(PyStr(Get(meta, "access").value))
    ensures Lower(d.access) == d.access
    ensures d.choices != Null ==> Get(meta, "type") == Some(Str("choice"))
    ensures Get(meta, "type") == Some(Str("choice")) ==> d.choices == GetOr(meta, "choices", Null)
  {
    LowerTwice(PyStr(GetOr(meta, "access", Str("getset"))));
    ParamDef(
      GetOr(meta, "label", Str(key)),
      GetOr(meta, "type", Str("text")),
      Lower(PyStr(GetOr(meta, "access", Str("getset")))),
      if Get(meta, "type") == Some(Str("choice")) then GetOr(meta, "choices", Null) else Null)
  }

  /** A parameter with no metadata is a text parameter offering both Get
      and Set. */
  lemma DefaultParamDef(key: string)
    ensures MakeParamDef(key, []) == ParamDef(Str(key), Str("text"), "getset", Null)
    ensures CanGet(MakeParamDef(key, []).access) && CanSet(MakeParamDef(key, []).access)
  {
    AccessGetSet();
  }

  /** The row gets a combo box. */
  predicate IsCombo(d: ParamDef) {
    d.ptype == Str("choice") && Truthy(d.choices)
  }

  predicate AllStrings(fields: seq<(string, Json)>) {
    forall i | 0 <= i < |fields| :: fields[i].1.Str?
  }

  /** `ParamRow.__init__` completes: `QLabel(label or key)` is given a
      string, a combo box is filled from an object whose values are
      strings, and a line edit's placeholder is the label itself (a
      string, or None for no placeholder). */
  predicate Creatable(d: ParamDef) {
    && (Truthy(d.title) ==> d.title.Str?)
    && (IsCombo(d) ==> d.choices.Obj? && AllStrings(d.choices.fields))
    && (!IsCombo(d) ==> d.title.Str? || d.title.Null?)
  }

  /** The text of a combo item: the string `choices[k]`. */
  function ChoiceLabel(choices: seq<(string, Json)>, k: string): string {
    match Get(choices, k)
    case Some(Str(s)) => s
    case _ => []
  }

  /** A key `d.get` finds is one of `d.keys()`. */
  lemma {:induction false} GetInKeys(fields: seq<(string, Json)>, k: string)
    requires Get(fields, k).Some?
    ensures k in Keys(fields)
  {
    if fields[0].0 != k {
      GetInKeys(fields[1..], k);
    }
  }

  // ---------------------------------------------------------------------
  // The row
  // ---------------------------------------------------------------------

  /** The page's console, shared by every row. */
  class Console {
    var lines: seq<string>

    constructor()
      ensures lines == []
    {
      lines := [];
    }

    /** `console.append(text)` */
    method Append(line: string)
      modifies this
      ensures lines == old(lines) + [line]
    {
      lines := lines + [line];
    }
  }

  /** An empty value may still be sent: the access allows Set but not Get. */
  predicate SetOnly(access: string) {
    Occurs("set", access) && !Occurs("get", access)
  }

  /** A reply selects a combo item: the row is a combo, the read worked,
      and the key it names is one of the choices. */
  predicate Selects(d: ParamDef, reply: Result<string, string>) {
    && IsCombo(d) && d.choices.Obj? && reply.Ok?
    && PickKey(reply.value).Some? && Get(d.choices.fields, PickKey(reply.value).value).Some?
  }

  /** What a GET on a combo row logs after the reply. */
  function PickLines(name: string, d: ParamDef, r: string): seq<string> {
    if !IsCombo(d) || !d.choices.Obj? then []
    else match PickKey(r)
      case None => ["[ERREUR] GET " + name + ": list index out of range"]
      case Some(k) =>
        if Get(d.choices.fields, k).Some? then
          ["[INFO] " + name + " = " + PyStr(Get(d.choices.fields, k).value) + " (key='" + k + "')"]
        else []
  }

  /** The console lines of one GET. */
  function GetLines(moduleName: string, key: string, d: ParamDef, reply: Result<string, string>): seq<string> {
    var name := moduleName + "." + key;
    match reply
    case Err(e) => ["[ERREUR] GET " + name + ": " + e]
    case Ok(r) => ["\U{2192} GET " + name, "\U{2190} " + r] + PickLines(name, d, r)
  }

  /** A choice the reply names is one of the combo box's items. */
  lemma ChoiceIsItem(d: ParamDef, k: string)
    requires d.choices.Obj? && Get(d.choices.fields, k).Some?
    ensures k in SortChoices(Keys(d.choices.fields))
  {
    GetInKeys(d.choices.fields, k);
    SortChoicesSpec(Keys(d.choices.fields));
    assert k in multiset(SortChoices(Keys(d.choices.fields)));
  }

  /** The console lines of one SET that reaches the backend. */
  function SetLines(moduleName: string, key: string, display: string, value: string, reply: Result<string, string>): seq<string> {
    var name := moduleName + "." + key;
    match reply
    case Err(e) => ["[ERREUR] SET " + name + ": " + e]
    case Ok(r) => ["\U{2192} SET " + name + " = " + display + " (raw:" + value + ")", "\U{2190} " + r]
  }

  /** The loop of `ParamRow.__init__` that fills the combo box: one item
      per choice, in `sort_key` order, labelled with the choice's text. */
  method FillCombo(choices: seq<(string, Json)>) returns (ks: seq<string>, labels: seq<string>)
    ensures ks == SortChoices(Keys(choices)) && |labels| == |ks|
    ensures forall j | 0 <= j < |ks| :: labels[j] == ChoiceLabel(choices, ks[j])
  {
    var sorted := SortChoices(Keys(choices));
    ks, labels := [], [];
    var i := 0;
    while i < |sorted|
      invariant 0 <= i <= |sorted| && |ks| == |labels| == i
      invariant ks == sorted[..i]
      invariant forall j | 0 <= j < i :: labels[j] == ChoiceLabel(choices, ks[j])
    {
      ks := ks + [sorted[i]];
      labels := labels + [ChoiceLabel(choices, sorted[i])];
      i := i + 1;
    }
    assert ks == sorted;
  }

  /** `ParamRow`: a label, a combo box or a line edit, and Get/Set
      buttons; the backend's answers are parameters of the handlers. */
  class ParamRow {
    const moduleName: string
    const key: string
    const pdef: ParamDef
    const console: Console
    /** The data of the combo box's items, in order; empty for a line edit. */
    const itemKeys: seq<string>
    /** The texts of the combo box's items. */
    const itemLabels: seq<string>
    /** The combo box's current index. */
    var current: int
    /** The line edit's text. */
    var text: string

    /** The row as `__init__` builds it, and the combo box always on one
        of its items. */
    predicate Valid()
      reads this
    {
      && Creatable(pdef)
      && |itemLabels| == |itemKeys|
      && (IsCombo(pdef) ==>
            && itemKeys == SortChoices(Keys(pdef.choices.fields))
            && (forall i | 0 <= i < |itemKeys| :: itemLabels[i] == ChoiceLabel(pdef.choices.fields, itemKeys[i]))
            && 0 <= current < |itemKeys|)
      && (!IsCombo(pdef) ==> itemKeys == [])
    }

    /** The text of the label in front of the input. */
    function Caption(): string
      requires Creatable(pdef)
    {
      if Truthy(pdef.title) then pdef.title.s else key
    }

    /** What SET sends: the current item's key, or the stripped text. */
    function Value(): string
      reads this
      requires Valid()
    {
      if IsCombo(pdef) then itemKeys[current] else Strip(text)
    }

    /** What the SET log line shows: the current item's text, or the
        stripped text. */
    function Display(): string
      reads this
      requires Valid()
    {
      if IsCombo(pdef) then itemLabels[current] else Strip(text)
    }

    constructor(moduleName: string, key: string, pdef: ParamDef, console: Console)
      requires Creatable(pdef)
      ensures Valid()
      ensures this.moduleName == moduleName && this.key == key && this.pdef == pdef && this.console == console
      ensures current == 0 && text == []
    {
      var ks: seq<string> := [];
      var labels: seq<string> := [];
      if IsCombo(pdef) {
        ks, labels := FillCombo(pdef.choices.fields);
      }
      this.moduleName := moduleName;
      this.key := key;
      this.pdef := pdef;
      this.console := console;
      itemKeys := ks;
      itemLabels := labels;
      current := 0;
      text := [];
    }

    /** `_on_get`: the backend's GET for this row, then its reply taken
        as `ApplyGetReply` says. The reply is an error exactly when the
        backend's port raised, and then only the error is logged. */
    method OnGet(backend: Backend.SerialBackend) returns (reply: Result<string, string>)
      requires Valid()
      modifies this, console, backend.ser
      ensures Valid()
      ensures reply.Err? <==> Backend.ModulePath(moduleName) != "" && old(backend.IsConnected()) && old(backend.ser.failing)
      ensures reply.Err? ==> reply.error == old(backend.ser.failure)
      ensures console.lines == old(console.lines) + GetLines(moduleName, key, pdef, reply)
      ensures Selects(pdef, reply) ==> Value() == PickKey(reply.value).value
      ensures !IsCombo(pdef) && reply.Ok? ==> Value() == Strip(reply.value)
    {
      ghost var r;
      reply, r := backend.DoGet(moduleName, key);
      ApplyGetReply(reply);
    }

    /** The rest of `_on_get` once the backend has answered: logs the
        request and the reply; a combo box moves to the item whose key is
        the reply's last word when that is one of the choices, a line edit
        takes the reply as its text; a failing read only logs the error. A
        value read this way is what the next SET sends. */
    method ApplyGetReply(reply: Result<string, string>)
      requires Valid()
      modifies this, console
      ensures Valid()
      ensures console.lines == old(console.lines) + GetLines(moduleName, key, pdef, reply)
      ensures IsCombo(pdef) ==> text == old(text)
      ensures !IsCombo(pdef) ==> current == old(current)
      ensures !IsCombo(pdef) ==> text == if reply.Ok? then reply.value else old(text)
      ensures IsCombo(pdef) && !Selects(pdef, reply) ==> current == old(current)
      ensures Selects(pdef, reply) ==> Value() == PickKey(reply.value).value
      ensures !IsCombo(pdef) && reply.Ok? ==> Value() == Strip(reply.value)
    {
      var name := moduleName + "." + key;
      match reply
      case Err(e) =>
        console.Append("[ERREUR] GET " + name + ": " + e);
      case Ok(r) =>
        console.Append("\U{2192} GET " + name);
        console.Append("\U{2190} " + r);
        ghost var shown := console.lines;
        if IsCombo(pdef) {
          PickReply(name, r);
        } else {
          text := r;
          assert console.lines == shown + PickLines(name, pdef, r);
        }
        Regroup(old(console.lines), ["\U{2192} GET " + name, "\U{2190} " + r], PickLines(name, pdef, r));
    }

    /** The combo box half of `_on_get` after the reply is logged: the
        reply's last word selects an item when it names a choice, and a
        blank reply logs the `IndexError`. */
    method PickReply(name: string, r: string)
      requires Valid() && IsCombo(pdef)
      modifies this, console
      ensures Valid() && text == old(text)
      ensures console.lines == old(console.lines) + PickLines(name, pdef, r)
      ensures !Selects(pdef, Ok(r)) ==> current == old(current)
      ensures Selects(pdef, Ok(r)) ==> Value() == PickKey(r).value
    {
      var picked := PickKey(r);
      if picked.None? {
        console.Append("[ERREUR] GET " + name + ": list index out of range");
      } else if Get(pdef.choices.fields, picked.value).Some? {
        var k := picked.value;
        ChoiceIsItem(pdef, k);
        Select(k);
        console.Append("[INFO] " + name + " = " + PyStr(Get(pdef.choices.fields, k).value) + " (key='" + k + "')");
      } else {
        assert console.lines + [] == console.lines;
      }
    }

    /** The loop of `_on_get` over the combo box's items: the first item
        whose data is `k` becomes current. */
    method Select(k: string)
      requires Valid() && IsCombo(pdef) && k in itemKeys
      modifies this
      ensures Valid() && text == old(text)
      ensures itemKeys[current] == k
      ensures forall j | 0 <= j < current :: itemKeys[j] != k
    {
      var i := 0;
      while i < |itemKeys|
        invariant 0 <= i <= |itemKeys| && current == old(current)
        invariant forall j | 0 <= j < i :: itemKeys[j] != k
      {
        if itemKeys[i] == k {
          current := i;
          return;
        }
        i := i + 1;
      }
    }

    /** `_on_set`: an empty value that the access does not allow is
        refused without reaching the backend; otherwise the backend's SET
        of the current value, then its reply logged as `ApplySetReply`
        says. The reply is an error exactly when the backend's port
        raised. */
    method OnSet(backend: Backend.SerialBackend) returns (sent: Option<string>, reply: Result<string, string>)
      requires Valid()
      modifies console, backend.ser
      ensures sent.Some? <==> Value() != [] || SetOnly(pdef.access)
      ensures sent.Some? ==> sent.value == Value()
      ensures sent.None? ==> console.lines == old(console.lines) && (backend.ser != null ==> unchanged(backend.ser))
      ensures sent.Some? ==>
        (reply.Err? <==> Backend.ModulePath(moduleName) != "" && old(backend.IsConnected()) && old(backend.ser.failing))
      ensures sent.Some? && reply.Err? ==> reply.error == old(backend.ser.failure)
      ensures console.lines == old(console.lines) + (if sent.Some? then SetLines(moduleName, key, Display(), Value(), reply) else [])
    {
      if Value() == [] && !SetOnly(pdef.access) {
        assert console.lines + [] == console.lines;
        return None, Ok("");
      }
      ghost var r;
      reply, r := backend.DoSet(moduleName, key, Some(Value()));
      sent := ApplySetReply(reply);
    }

    /** The rest of `_on_set` around the backend: the current value is
        sent when it is non-empty or the access allows Set and not Get,
        otherwise nothing is sent or logged; `sent` is what reaches the
        backend, and the exchange is logged with `reply`. */
    method ApplySetReply(reply: Result<string, string>) returns (sent: Option<string>)
      requires Valid()
      modifies console
      ensures sent.Some? <==> Value() != [] || SetOnly(pdef.access)
      ensures sent.Some? ==> sent.value == Value()
      ensures console.lines == old(console.lines) + (if sent.Some? then SetLines(moduleName, key, Display(), Value(), reply) else [])
    {
      var value: string;
      var display: string;
      if IsCombo(pdef) {
        value := itemKeys[current];
        display := itemLabels[current];
      } else {
        value := Strip(text);
        display := value;
      }
      if value == [] && !SetOnly(pdef.access) {
        return None;
      }
      sent := Some(value);
      var name := moduleName + "." + key;
      match reply
      case Err(e) =>
        console.Append("[ERREUR] SET " + name + ": " + e);
      case Ok(r) =>
        console.Append("\U{2192} SET " + name + " = " + display + " (raw:" + value + ")");
        console.Append("\U{2190} " + r);
    }
  }

  /** Of a row the page built, an empty value is sent only when the row
      shows Set and hides Get. */
  lemma EmptySetOnlyWhenSetShown(key: string, meta: seq<(string, Json)>)
    ensures var d := MakeParamDef(key, meta);
      SetOnly(d.access) <==> CanSet(d.access) && !CanGet(d.access)
  {
    var d := MakeParamDef(key, meta);
    ButtonsOfLowered(d.access);
  }
}
