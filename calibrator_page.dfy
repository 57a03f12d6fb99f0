/** The calibrator page itself (calibrator_widget.py,
    `MenzuCalibratorPage`): loading the database when the page is built,
    choosing a card, and laying out the parameter rows of one module, with
    the fixed key order a few modules impose. */
module CalibratorPage {
  import opened Wrappers
  import opened Text
  import Codec
  import opened Calibrator
  import opened ParamRows

  // ---------------------------------------------------------------------
  // Key order
  // ---------------------------------------------------------------------

  const MaxLogKeys: seq<string> := ["MAX_LOG1", "MAX_LOG2", "MAX_LOG3", "MAX_LOG4", "MAX_LOG5"]
  const WriteLogKeys: seq<string> := ["LOG1_WRITE", "LOG2_WRITE", "LOG3_WRITE", "LOG4_WRITE", "LOG5_WRITE"]
  const ReadLogKeys: seq<string> := ["LOG1_READ", "LOG2_READ", "LOG3_READ", "LOG4_READ", "LOG5_READ"]
  const UnreadLogKeys: seq<string> := ["LOG1_UNREAD", "LOG2_UNREAD", "LOG3_UNREAD", "LOG4_UNREAD", "LOG5_UNREAD"]
  const ClearLogKeys: seq<string> := ["CLEAR_LOG1", "CLEAR_LOG2", "CLEAR_LOG3", "CLEAR_LOG4", "CLEAR_LOG5"]

  /** The order of the NVM module's keys: the five runs above, one after
      the other. */
  const NvmOrder: seq<string> := MaxLogKeys + WriteLogKeys + ReadLogKeys + UnreadLogKeys + ClearLogKeys

  /** `preferred_orders`: the modules whose parameters come in a fixed
      order. */
  const PreferredOrders: map<string, seq<string>> := map[
    "LoRaWAN_at" := ["APPKEY", "DEUI", "NWKKEY", "ACT", "CLASS", "NJS", "CFM"],
    "NVM" := NvmOrder,
    "MODBUS_Master" := ["PORT", "SPEED", "PARITY", "HOST"]]

  /** No key occurs twice. */
  predicate Distinct(s: seq<string>) {
    forall i, j | 0 <= i < j < |s| :: s[i] != s[j]
  }

  /** `[k for k in order if k in params]` */
  function Present(order: seq<string>, keys: seq<string>): seq<string> {
    if order == [] then []
    else (if order[0] in keys then [order[0]] else []) + Present(order[1..], keys)
  }

  /** `[k for k in keys if k not in order]` */
  function Remaining(keys: seq<string>, order: seq<string>): seq<string> {
    if keys == [] then []
    else (if keys[0] !in order then [keys[0]] else []) + Remaining(keys[1..], order)
  }

  /** The order the rows of a module come in. */
  function OrderedKeys(moduleName: string, keys: seq<string>): seq<string> {
    if moduleName in PreferredOrders then
      Present(PreferredOrders[moduleName], keys) + Remaining(keys, PreferredOrders[moduleName])
    else keys
  }

  lemma {:induction false} PresentSpec(order: seq<string>, keys: seq<string>)
    ensures forall x :: x in Present(order, keys) <==> x in order && x in keys
    ensures Distinct(order) ==> Distinct(Present(order, keys))
  {
    if order != [] {
      PresentSpec(order[1..], keys);
      var head := if order[0] in keys then [order[0]] else [];
      var rest := Present(order[1..], keys);
      assert order == [order[0]] + order[1..];
      if Distinct(order) {
        assert Distinct(order[1..]) by {
          forall i, j | 0 <= i < j < |order| - 1
            ensures order[1..][i] != order[1..][j]
          {
            assert order[1..][i] == order[i + 1] && order[1..][j] == order[j + 1];
          }
        }
        assert order[0] !in rest;
        DistinctAppend(head, rest);
      }
    }
  }

  lemma {:induction false} RemainingSpec(keys: seq<string>, order: seq<string>)
    ensures forall x :: x in Remaining(keys, order) <==> x in keys && x !in order
    ensures Distinct(keys) ==> Distinct(Remaining(keys, order))
  {
    if keys != [] {
      RemainingSpec(keys[1..], order);
      var head := if keys[0] !in order then [keys[0]] else [];
      var rest := Remaining(keys[1..], order);
      assert keys == [keys[0]] + keys[1..];
      if Distinct(keys) {
        assert Distinct(keys[1..]) by {
          forall i, j | 0 <= i < j < |keys| - 1
            ensures keys[1..][i] != keys[1..][j]
          {
            assert keys[1..][i] == keys[i + 1] && keys[1..][j] == keys[j + 1];
          }
        }
        assert keys[0] !in rest;
        DistinctAppend(head, rest);
      }
    }
  }

  /** Two lists without repeats and without common keys join into one
      without repeats. */
  lemma DistinctAppend(a: seq<string>, b: seq<string>)
    requires Distinct(a) && Distinct(b)
    requires forall x | x in a :: x !in b
    ensures Distinct(a + b)
  {
    var c := a + b;
    forall i, j | 0 <= i < j < |c|
      ensures c[i] != c[j]
    {
      if j < |a| {
        assert c[i] == a[i] && c[j] == a[j];
      } else if i >= |a| {
        assert c[i] == b[i - |a|] && c[j] == b[j - |a|];
      } else {
        assert c[i] == a[i] && c[j] == b[j - |a|];
        assert a[i] in a && b[j - |a|] in b;
      }
    }
  }

  /** In a list without repeats every member occurs once. */
  lemma {:induction false} DistinctCount(s: seq<string>, x: string)
    requires Distinct(s)
    ensures multiset(s)[x] == if x in s then 1 else 0
  {
    if s != [] {
      assert Distinct(s[1..]) by {
        forall i, j | 0 <= i < j < |s| - 1
          ensures s[1..][i] != s[1..][j]
        {
          assert s[1..][i] == s[i + 1] && s[1..][j] == s[j + 1];
        }
      }
      DistinctCount(s[1..], x);
      assert s == [s[0]] + s[1..];
      if x == s[0] {
        assert x !in s[1..];
      }
    }
  }

  /** Two lists without repeats holding the same keys are permutations of
      each other. */
  lemma SameKeysPermute(a: seq<string>, b: seq<string>)
    requires Distinct(a) && Distinct(b)
    requires forall x :: x in a <==> x in b
    ensures multiset(a) == multiset(b)
  {
    forall x
      ensures multiset(a)[x] == multiset(b)[x]
    {
      DistinctCount(a, x);
      DistinctCount(b, x);
    }
  }

  /** The orders given are free of repeats. */
  lemma PreferredOrdersDistinct(moduleName: string)
    requires moduleName in PreferredOrders
    ensures Distinct(PreferredOrders[moduleName])
  {
    if moduleName == "NVM" {
      NvmOrderDistinct();
    }
  }

  lemma NvmOrderDistinct()
    ensures Distinct(NvmOrder)
  {
    var a, b, c, d, e := MaxLogKeys, WriteLogKeys, ReadLogKeys, UnreadLogKeys, ClearLogKeys;
    NvmRunsShaped();
    NvmRunsDistinct();
    ShapedApart(a, 8, 'M', b, 10, 'L');
    DistinctAppend(a, b);
    ShapedApart(a, 8, 'M', c, 9, 'L');
    ShapedApart(b, 10, 'L', c, 9, 'L');
    ApartAppend(a, b, c);
    DistinctAppend(a + b, c);
    ShapedApart(a, 8, 'M', d, 11, 'L');
    ShapedApart(b, 10, 'L', d, 11, 'L');
    ShapedApart(c, 9, 'L', d, 11, 'L');
    ApartAppend(a, b, d);
    ApartAppend(a + b, c, d);
    DistinctAppend(a + b + c, d);
    ShapedApart(a, 8, 'M', e, 10, 'C');
    ShapedApart(b, 10, 'L', e, 10, 'C');
    ShapedApart(c, 9, 'L', e, 10, 'C');
    ShapedApart(d, 11, 'L', e, 10, 'C');
    ApartAppend(a, b, e);
    ApartAppend(a + b, c, e);
    ApartAppend(a + b + c, d, e);
    DistinctAppend(a + b + c + d, e);
  }

  /** The runs of the NVM order differ in length or first letter. */
  lemma NvmRunsShaped()
    ensures Shaped(MaxLogKeys, 8, 'M') && Shaped(WriteLogKeys, 10, 'L') && Shaped(ReadLogKeys, 9, 'L')
    ensures Shaped(UnreadLogKeys, 11, 'L') && Shaped(ClearLogKeys, 10, 'C')
  {
  }

  /** Within a run, the keys differ in their log number. */
  lemma NvmRunsDistinct()
    ensures Distinct(MaxLogKeys) && Distinct(WriteLogKeys) && Distinct(ReadLogKeys)
    ensures Distinct(UnreadLogKeys) && Distinct(ClearLogKeys)
  {
  }

  /** Every key has length `n` and starts with `c`. */
  predicate Shaped(s: seq<string>, n: nat, c: char) {
    forall i | 0 <= i < |s| :: |s[i]| == n > 0 && s[i][0] == c
  }

  /** Keys of different lengths or first letters are different keys. */
  lemma ShapedApart(a: seq<string>, n: nat, c: char, b: seq<string>, m: nat, d: char)
    requires Shaped(a, n, c) && Shaped(b, m, d) && (n != m || c != d)
    ensures forall x | x in a :: x !in b
  {
  }

  lemma ApartAppend(a: seq<string>, b: seq<string>, c: seq<string>)
    requires forall x | x in a :: x !in c
    requires forall x | x in b :: x !in c
    ensures forall x | x in a + b :: x !in c
  {
  }

  /** Reordering the keys of a module loses none and adds none: the keys
      of a fixed order come first, then the others in their own order. */
  lemma OrderedKeysPermute(moduleName: string, keys: seq<string>)
    requires Distinct(keys)
    ensures multiset(OrderedKeys(moduleName, keys)) == multiset(keys)
    ensures Distinct(OrderedKeys(moduleName, keys))
  {
    if moduleName in PreferredOrders {
      var order := PreferredOrders[moduleName];
      PreferredOrdersDistinct(moduleName);
      PresentSpec(order, keys);
      RemainingSpec(keys, order);
      DistinctAppend(Present(order, keys), Remaining(keys, order));
      SameKeysPermute(OrderedKeys(moduleName, keys), keys);
    }
  }

  /** A key of a fixed order comes before every key outside it. */
  lemma PreferredFirst(moduleName: string, keys: seq<string>, i: nat, j: nat)
    requires moduleName in PreferredOrders
    requires i < |OrderedKeys(moduleName, keys)| && j < |OrderedKeys(moduleName, keys)|
    requires OrderedKeys(moduleName, keys)[i] in PreferredOrders[moduleName]
    requires OrderedKeys(moduleName, keys)[j] !in PreferredOrders[moduleName]
    ensures i < j
  {
    var order := PreferredOrders[moduleName];
    var p := Present(order, keys);
    var s := OrderedKeys(moduleName, keys);
    PresentSpec(order, keys);
    RemainingSpec(keys, order);
  }

  // ---------------------------------------------------------------------
  // Console lines
  // ---------------------------------------------------------------------

  /** Python's name for the type of a JSON value. */
  function TypeName(j: Json): string {
    match j
    case Obj(_) => "dict"
    case Str(_) => "str"
    case Num(_) => "int"
    case Bool(_) => "bool"
    case Null => "NoneType"
    case Arr(_) => "list"
  }

  /** `repr` of a list of keys. */
  function KeyList(ks: seq<string>): string {
    "[" + QuotedKeys(ks) + "]"
  }

  function QuotedKeys(ks: seq<string>): string {
    if ks == [] then []
    else if |ks| == 1 then "'" + ks[0] + "'"
    else "'" + ks[0] + "', " + QuotedKeys(ks[1..])
  }

  /** The message of the exception a row raises while it is built. */
  function CreationError(d: ParamDef): string {
    if IsCombo(d) && !d.choices.Obj? then "'" + TypeName(d.choices) + "' object has no attribute 'keys'"
    else "argument has unexpected type"
  }

  // ---------------------------------------------------------------------
  // Building the rows of a module
  // ---------------------------------------------------------------------

  /** `self.data.get("cartes", {})` */
  function Cards(data: Json): Json {
    if data.Obj? then GetOr(data.fields, "cartes", Obj([])) else Obj([])
  }

  /** `self.data.get("cartes", {}).get(card, {})` */
  function ModulesOf(data: Json, card: string): Json {
    var cards := Cards(data);
    if cards.Obj? then GetOr(cards.fields, card, Obj([])) else Obj([])
  }

  /** `self.data.get("cartes", {}).get(card, {}).get(module, {})` */
  function ParamsOf(data: Json, card: string, moduleName: string): Json {
    var modules := ModulesOf(data, card);
    if modules.Obj? then GetOr(modules.fields, moduleName, Obj([])) else Obj([])
  }

  /** The lookup of `_on_module_changed` raises `AttributeError`: one of
      the values it calls `.get` on is not an object. */
  predicate ParamsLookupRaises(data: Json, card: string) {
    !data.Obj? || !Cards(data).Obj? || !ModulesOf(data, card).Obj?
  }

  /** The row one key of a module gets, if any. */
  function RowOf(params: seq<(string, Json)>, key: string): Option<ParamDef> {
    var meta := GetOr(params, key, Null);
    if meta.Obj? && Creatable(MakeParamDef(key, meta.fields)) then Some(MakeParamDef(key, meta.fields))
    else None
  }

  /** The console line one key of a module gives. */
  function KeyLine(moduleName: string, params: seq<(string, Json)>, key: string): string {
    var meta := GetOr(params, key, Null);
    if !meta.Obj? then "[WARN] Param '" + key + "' ignor\U{E9}: type <class '" + TypeName(meta) + "'>"
    else
      var d := MakeParamDef(key, meta.fields);
      if Creatable(d) then
        "[DEBUG] Ligne cr\U{E9}\U{E9}e: " + moduleName + "." + key + " (access=" + d.access + ", type=" + PyStr(d.ptype) + ")"
      else "[ERREUR] Cr\U{E9}ation ligne '" + key + "': " + CreationError(d)
  }

  /** The rows the keys give, in order. */
  function RowDefs(params: seq<(string, Json)>, keys: seq<string>): seq<(string, ParamDef)> {
    if keys == [] then []
    else RowDefs(params, keys[..|keys| - 1]) + RowDef(params, keys[|keys| - 1])
  }

  /** The row one key gives: none, or one carrying its description. */
  function RowDef(params: seq<(string, Json)>, key: string): seq<(string, ParamDef)> {
    match RowOf(params, key) case Some(d) => [(key, d)] case None => []
  }

  /** The row of a key, when there is one, is that key's description. */
  lemma RowDefShape(params: seq<(string, Json)>, key: string)
    ensures |RowDef(params, key)| == if RowOf(params, key).Some? then 1 else 0
    ensures |RowDef(params, key)| == 1 ==>
      RowDef(params, key)[0].0 == key && RowOf(params, key) == Some(RowDef(params, key)[0].1)
  {
  }

  /** A key without a row adds no description. */
  lemma NoRowDef(params: seq<(string, Json)>, key: string, defs: seq<(string, ParamDef)>)
    requires RowOf(params, key) == None
    ensures RowDef(params, key) == [] && defs + RowDef(params, key) == defs
  {
  }

  /** The console lines the keys give, one each. */
  function KeyLines(moduleName: string, params: seq<(string, Json)>, keys: seq<string>): seq<string> {
    if keys == [] then []
    else KeyLines(moduleName, params, keys[..|keys| - 1]) + [KeyLine(moduleName, params, keys[|keys| - 1])]
  }

  /** The rows `_on_module_changed` lays out for parameters `params`. */
  function ModuleRows(moduleName: string, params: Json): seq<(string, ParamDef)> {
    if !params.Obj? || params.fields == [] then []
    else RowDefs(params.fields, OrderedKeys(moduleName, Keys(params.fields)))
  }

  /** What `_on_module_changed` writes on the console. */
  function ModuleLog(card: string, moduleName: string, params: Json): seq<string> {
    var place := card + "." + moduleName;
    if !params.Obj? then ["[ERREUR] Param\U{E8}tres '" + place + "' non-dict."]
    else if params.fields == [] then ["[WARN] Aucun param\U{E8}tre sous '" + place + "'."]
    else
      var keys := OrderedKeys(moduleName, Keys(params.fields));
      ["[DEBUG] Params cl\U{E9}s (ordonn\U{E9}s): " + KeyList(keys)]
      + KeyLines(moduleName, params.fields, keys)
      + ["[INFO] Lignes cr\U{E9}\U{E9}es: " + Codec.NatToString(|RowDefs(params.fields, keys)|) + "/"
         + Codec.NatToString(|keys|) + " pour " + place]
  }

  lemma RowDefsStep(moduleName: string, params: seq<(string, Json)>, keys: seq<string>, i: nat)
    requires i < |keys|
    ensures RowDefs(params, keys[..i + 1]) == RowDefs(params, keys[..i]) + RowDef(params, keys[i])
    ensures KeyLines(moduleName, params, keys[..i + 1])
      == KeyLines(moduleName, params, keys[..i]) + [KeyLine(moduleName, params, keys[i])]
  {
    assert keys[..i + 1][..i] == keys[..i];
  }

  /** There is at most one row per key. */
  lemma {:induction false} RowDefsLength(params: seq<(string, Json)>, keys: seq<string>)
    ensures |RowDefs(params, keys)| <= |keys|
  {
    if keys != [] {
      RowDefsLength(params, keys[..|keys| - 1]);
    }
  }

  /** Every row belongs to one of the keys and carries the description its
      metadata makes. */
  lemma {:induction false} RowDefsSound(params: seq<(string, Json)>, keys: seq<string>)
    ensures forall i | 0 <= i < |RowDefs(params, keys)| ::
      RowDefs(params, keys)[i].0 in keys && RowOf(params, RowDefs(params, keys)[i].0) == Some(RowDefs(params, keys)[i].1)
  {
    if keys != [] {
      var init := keys[..|keys| - 1];
      RowDefsSound(params, init);
      var r0 := RowDefs(params, init);
      var r := RowDefs(params, keys);
      assert r == r0 + RowDef(params, keys[|keys| - 1]);
      var last := RowDef(params, keys[|keys| - 1]);
      RowDefShape(params, keys[|keys| - 1]);
      forall i | 0 <= i < |r|
        ensures r[i].0 in keys && RowOf(params, r[i].0) == Some(r[i].1)
      {
        if i < |r0| {
          AppendAt(r0, last, i);
          InOfInit(keys, r0[i].0);
        } else {
          AppendAtRight(r0, last, i);
        }
      }
    }
  }

  /** An element of the sequence without its last is in the sequence. */
  lemma InOfInit<T>(s: seq<T>, x: T)
    requires s != [] && x in s[..|s| - 1]
    ensures x in s
  {
    var j :| 0 <= j < |s| - 1 && s[..|s| - 1][j] == x;
    assert s[j] == x;
  }

  /** An element other than the last is in the sequence without its last. */
  lemma InInit<T>(s: seq<T>, x: T)
    requires x in s && x != s[|s| - 1]
    ensures x in s[..|s| - 1]
  {
    var j :| 0 <= j < |s| && s[j] == x;
    assert s[..|s| - 1][j] == x;
  }

  /** A key gets a row whenever its metadata is an object that makes a
      buildable description. */
  lemma {:induction false} RowDefsComplete(params: seq<(string, Json)>, keys: seq<string>, k: string)
    requires k in keys && RowOf(params, k).Some?
    ensures exists i | 0 <= i < |RowDefs(params, keys)| :: RowDefs(params, keys)[i].0 == k
  {
    var init := keys[..|keys| - 1];
    var last := keys[|keys| - 1];
    var r0 := RowDefs(params, init);
    var r := RowDefs(params, keys);
    var added := RowDef(params, last);
    assert r == r0 + added;
    if k == last {
      assert RowDef(params, last) == [(last, RowOf(params, last).value)];
      assert r[|r0|].0 == k;
    } else {
      InInit(keys, k);
      RowDefsComplete(params, init, k);
      var i :| 0 <= i < |r0| && r0[i].0 == k;
      AppendAt(r0, added, i);
    }
  }

  /** Every parameter whose metadata makes a buildable description gets
      exactly one row, whatever order the module imposes. */
  lemma EveryParamGetsARow(moduleName: string, params: seq<(string, Json)>, k: string)
    requires Distinct(Keys(params)) && params != []
    requires k in Keys(params) && RowOf(params, k).Some?
    ensures exists i | 0 <= i < |ModuleRows(moduleName, Obj(params))| :: ModuleRows(moduleName, Obj(params))[i].0 == k
  {
    var keys := OrderedKeys(moduleName, Keys(params));
    OrderedKeysKeep(moduleName, Keys(params), k);
    RowDefsComplete(params, keys, k);
    assert ModuleRows(moduleName, Obj(params)) == RowDefs(params, keys);
  }

  /** Ordering the keys loses none of them. */
  lemma OrderedKeysKeep(moduleName: string, keys: seq<string>, k: string)
    requires Distinct(keys) && k in keys
    ensures k in OrderedKeys(moduleName, keys)
  {
    OrderedKeysPermute(moduleName, keys);
    assert k in multiset(keys);
  }

  /** `row` was built for key `key` of module `moduleName` from
      description `d`, and writes to `console`. */
  predicate Built(row: ParamRow, moduleName: string, key: string, d: ParamDef, console: Console) {
    row.moduleName == moduleName && row.key == key && row.pdef == d && row.console == console
  }

  /** Each row was built from the description at its place. */
  predicate AllBuilt(rows: seq<ParamRow>, moduleName: string, defs: seq<(string, ParamDef)>, console: Console) {
    && |rows| == |defs|
    && forall i | 0 <= i < |rows| :: Built(rows[i], moduleName, defs[i].0, defs[i].1, console)
  }

  lemma AllBuiltSnoc(rows: seq<ParamRow>, moduleName: string, defs: seq<(string, ParamDef)>, console: Console,
                     row: ParamRow, key: string, d: ParamDef)
    requires AllBuilt(rows, moduleName, defs, console) && Built(row, moduleName, key, d, console)
    ensures AllBuilt(rows + [row], moduleName, defs + [(key, d)], console)
  {
  }

  /** `list(self.data.get("cartes", {}).keys())` */
  function CardNames(data: Json): seq<string> {
    if Cards(data).Obj? then Keys(Cards(data).fields) else []
  }

  /** What `_on_card_changed` writes on the console. */
  function CardLog(data: Json, card: string): seq<string> {
    var modules := ModulesOf(data, card);
    if !modules.Obj? then ["[ERREUR] Les modules de '" + card + "' ne sont pas un dict."]
    else
      var names := Keys(modules.fields);
      ["[DEBUG] Modules pour '" + card + "': " + KeyList(names)]
      + if names == [] then ["[WARN] Aucun module sous '" + card + "'."]
        else ModuleLog(card, names[0], ParamsOf(data, card, names[0]))
  }

  /** The module whose rows `_on_card_changed` shows, and those rows. */
  function CardRows(data: Json, card: string): (string, seq<(string, ParamDef)>) {
    var modules := ModulesOf(data, card);
    if !modules.Obj? || modules.fields == [] then ([], [])
    else
      var first := Keys(modules.fields)[0];
      (first, ModuleRows(first, ParamsOf(data, card, first)))
  }

  /** The page's data once the loader's result is in, the tag popped. */
  function StartData(loaded: Result<Json, string>): Json {
    if loaded.Ok? && loaded.value.Obj? then Obj(PopField(loaded.value.fields, "_loaded_from").1) else Obj([])
  }

  /** What building the page writes on the console. */
  function StartLog(loaded: Result<Json, string>): seq<string> {
    if loaded.Err? then ["[ERREUR] Chargement JSON: " + loaded.error]
    else if !loaded.value.Obj? then []
    else
      var src := PopField(loaded.value.fields, "_loaded_from").0;
      var data := StartData(loaded);
      var names := CardNames(data);
      (if src.Some? && Truthy(src.value) then ["[INFO] JSON charg\U{E9}: " + PyStr(src.value)] else [])
      + if names == [] then ["[WARN] Aucune carte trouv\U{E9}e."] else CardLog(data, names[0])
  }

  // ---------------------------------------------------------------------
  // The page
  // ---------------------------------------------------------------------

  /** The calibrator tab: the normalised database, the card and module
      combo boxes, the rows on show, and the console. */
  class Page {
    var data: Json
    /** The card combo box's items and current text. */
    var cards: seq<string>
    var card: string
    /** The module combo box's items. */
    var modules: seq<string>
    var rows: seq<ParamRow>
    const console: Console

    /** `__init__`: loads the database, pops the loader's tag, fills the
        card combo box and shows the first card; a failed load leaves the
        page empty with the error on the console. */
    constructor(jsonPath: Option<string>, cwd: string, here: string, fs: map<string, FileState>)
      ensures fresh(console)
      ensures var loaded := LoadFrom(Candidates(jsonPath, cwd, here), fs, []);
        && data == StartData(loaded)
        && cards == (if loaded.Ok? then CardNames(data) else [])
        && console.lines == StartLog(loaded)
        && (cards != [] ==> card == cards[0] && RowsMatch(CardRows(data, card).0, CardRows(data, card).1))
        && (cards == [] ==> rows == [])
    {
      data := Obj([]);
      cards := [];
      card := [];
      modules := [];
      rows := [];
      console := new Console();
      new;
      var loaded := LoadConfigAny(jsonPath, cwd, here, fs);
      if loaded.Err? {
        console.Append("[ERREUR] Chargement JSON: " + loaded.error);
        return;
      }
      LoadedIsSchema(Candidates(jsonPath, cwd, here), fs, []);
      var popped := PopField(loaded.value.fields, "_loaded_from");
      data := Obj(popped.1);
      assert data == StartData(loaded);
      var intro: seq<string> := [];
      if popped.0.Some? && Truthy(popped.0.value) {
        intro := ["[INFO] JSON charg\U{E9}: " + PyStr(popped.0.value)];
        console.Append(intro[0]);
      }
      assert console.lines == intro;
      cards := Keys(Cards(data).fields);
      assert cards == CardNames(data);
      if cards != [] {
        OnCardChanged(cards[0]);
        assert StartLog(loaded) == intro + CardLog(data, cards[0]);
      } else {
        console.Append("[WARN] Aucune carte trouv\U{E9}e.");
      }
    }

    /** `_on_card_changed(card_name)`: the module combo box is filled with
        the card's modules and the first one is shown; a card whose modules
        are not an object, or has none, leaves no rows. */
    method OnCardChanged(cardName: string)
      requires Cards(data).Obj?
      modifies this, console
      ensures card == cardName && data == old(data) && cards == old(cards)
      ensures console.lines == old(console.lines) + CardLog(data, cardName)
      ensures ModulesOf(data, cardName).Obj? ==> modules == Keys(ModulesOf(data, cardName).fields)
      ensures !ModulesOf(data, cardName).Obj? ==> modules == old(modules)
      ensures RowsMatch(CardRows(data, cardName).0, CardRows(data, cardName).1)
    {
      card := cardName;
      var found := ModulesOf(data, cardName);
      if !found.Obj? {
        console.Append("[ERREUR] Les modules de '" + cardName + "' ne sont pas un dict.");
        rows := [];
        return;
      }
      var names := Keys(found.fields);
      var head := "[DEBUG] Modules pour '" + cardName + "': " + KeyList(names);
      console.Append(head);
      modules := names;
      if names != [] {
        assert data.Obj?;
        var raised := OnModuleChanged(names[0]);
        assert CardLog(data, cardName) == [head] + ModuleLog(cardName, names[0], ParamsOf(data, cardName, names[0]));
        assert CardRows(data, cardName) == (names[0], ModuleRows(names[0], ParamsOf(data, cardName, names[0])));
        Regroup(old(console.lines), [head], ModuleLog(cardName, names[0], ParamsOf(data, cardName, names[0])));
      } else {
        console.Append("[WARN] Aucun module sous '" + cardName + "'.");
        rows := [];
      }
    }

    /** Every row on show was built for the current parameters and writes
        to the page's console. */
    predicate RowsMatch(moduleName: string, defs: seq<(string, ParamDef)>)
      reads this, rows
    {
      && AllBuilt(rows, moduleName, defs, console)
      && (forall i | 0 <= i < |rows| :: rows[i].Valid())
    }

    /** One turn of the loop of `_on_module_changed`: metadata that is not
        an object is skipped with a warning; otherwise a row is built from
        its description, or the failure to build one is logged. */
    method AddRow(moduleName: string, params: seq<(string, Json)>, key: string, ghost defs: seq<(string, ParamDef)>)
      returns (built: bool)
      requires RowsMatch(moduleName, defs)
      modifies this, console
      ensures built <==> RowOf(params, key).Some?
      ensures data == old(data) && card == old(card) && cards == old(cards) && modules == old(modules)
      ensures console.lines == old(console.lines) + [KeyLine(moduleName, params, key)]
      ensures |rows| == |old(rows)| + |RowDef(params, key)|
      ensures RowsMatch(moduleName, defs + RowDef(params, key))
    {
      built := false;
      var meta := GetOr(params, key, Null);
      if !meta.Obj? {
        assert RowOf(params, key) == None;
        console.Append("[WARN] Param '" + key + "' ignor\U{E9}: type <class '" + TypeName(meta) + "'>");
        NoRowDef(params, key, defs);
      } else {
        var pdef := MakeParamDef(key, meta.fields);
        if Creatable(pdef) {
          assert RowOf(params, key) == Some(pdef);
          assert RowDef(params, key) == [(key, pdef)];
          ShowRow(moduleName, key, pdef, defs);
          built := true;
        } else {
          assert RowOf(params, key) == None;
          console.Append("[ERREUR] Cr\U{E9}ation ligne '" + key + "': " + CreationError(pdef));
          NoRowDef(params, key, defs);
        }
      }
    }

    /** Builds the row of a creatable description and appends it to the
        rows on show, logging its access and type. */
    method ShowRow(moduleName: string, key: string, pdef: ParamDef, ghost defs: seq<(string, ParamDef)>)
      requires Creatable(pdef) && RowsMatch(moduleName, defs)
      modifies this, console
      ensures data == old(data) && card == old(card) && cards == old(cards) && modules == old(modules)
      ensures console.lines == old(console.lines)
        + ["[DEBUG] Ligne cr\U{E9}\U{E9}e: " + moduleName + "." + key + " (access=" + pdef.access + ", type=" + PyStr(pdef.ptype) + ")"]
      ensures |rows| == |old(rows)| + 1
      ensures RowsMatch(moduleName, defs + [(key, pdef)])
    {
      ghost var before := rows;
      var row := new ParamRow(moduleName, key, pdef, console);
      rows := rows + [row];
      console.Append("[DEBUG] Ligne cr\U{E9}\U{E9}e: " + moduleName + "." + key + " (access=" + pdef.access + ", type=" + PyStr(pdef.ptype) + ")");
      AllBuiltSnoc(before, moduleName, defs, console, row, key, pdef);
      forall j | 0 <= j < |rows|
        ensures rows[j].Valid()
      {
        if j < |before| {
          assert rows[j] == before[j];
        }
      }
    }

    /** `_on_module_changed(module_name)`: the rows on show are replaced by
        those of the module under the current card, in the module's order;
        a parameter table that is not an object, or is empty, leaves no
        rows. When the current card's modules are not an object (a module
        list left over from an earlier card), the rows are cleared and the
        lookup raises `AttributeError` with nothing logged. */
    method OnModuleChanged(moduleName: string) returns (raised: bool)
      modifies this, console
      ensures data == old(data) && card == old(card) && cards == old(cards) && modules == old(modules)
      ensures raised <==> ParamsLookupRaises(data, card)
      ensures raised ==> rows == [] && console.lines == old(console.lines)
      ensures !raised ==>
        && console.lines == old(console.lines) + ModuleLog(card, moduleName, ParamsOf(data, card, moduleName))
        && RowsMatch(moduleName, ModuleRows(moduleName, ParamsOf(data, card, moduleName)))
    {
      rows := [];
      if ParamsLookupRaises(data, card) {
        return true;
      }
      raised := false;
      var params := ParamsOf(data, card, moduleName);
      var place := card + "." + moduleName;
      if !params.Obj? {
        console.Append("[ERREUR] Param\U{E8}tres '" + place + "' non-dict.");
        return;
      }
      if params.fields == [] {
        console.Append("[WARN] Aucun param\U{E8}tre sous '" + place + "'.");
        return;
      }
      var keys := Keys(params.fields);
      if moduleName in PreferredOrders {
        var order := PreferredOrders[moduleName];
        keys := Present(order, keys) + Remaining(keys, order);
      }
      assert keys == OrderedKeys(moduleName, Keys(params.fields));
      var head := "[DEBUG] Params cl\U{E9}s (ordonn\U{E9}s): " + KeyList(keys);
      console.Append(head);
      var created := ShowKeys(moduleName, params.fields, keys);
      var tail := "[INFO] Lignes cr\U{E9}\U{E9}es: " + Codec.NatToString(created) + "/" + Codec.NatToString(|keys|) + " pour " + place;
      console.Append(tail);
      assert ModuleLog(card, moduleName, params) == [head] + KeyLines(moduleName, params.fields, keys) + [tail];
      Regroup(old(console.lines), [head], KeyLines(moduleName, params.fields, keys));
      Regroup(old(console.lines), [head] + KeyLines(moduleName, params.fields, keys), [tail]);
    }

    /** The loop of `_on_module_changed`: one turn per key, in order. */
    method ShowKeys(moduleName: string, params: seq<(string, Json)>, keys: seq<string>) returns (created: nat)
      requires rows == []
      modifies this, console
      ensures data == old(data) && card == old(card) && cards == old(cards) && modules == old(modules)
      ensures console.lines == old(console.lines) + KeyLines(moduleName, params, keys)
      ensures created == |RowDefs(params, keys)|
      ensures RowsMatch(moduleName, RowDefs(params, keys))
    {
      created := 0;
      var i := 0;
      while i < |keys|
        invariant 0 <= i <= |keys|
        invariant console.lines == old(console.lines) + KeyLines(moduleName, params, keys[..i])
        invariant created == |rows|
        invariant RowsMatch(moduleName, RowDefs(params, keys[..i]))
        invariant data == old(data) && card == old(card) && cards == old(cards) && modules == old(modules)
      {
        RowDefsStep(moduleName, params, keys, i);
        RowDefShape(params, keys[i]);
        Regroup(old(console.lines), KeyLines(moduleName, params, keys[..i]), [KeyLine(moduleName, params, keys[i])]);
        var built := AddRow(moduleName, params, keys[i], RowDefs(params, keys[..i]));
        if built {
          created := created + 1;
        }
        i := i + 1;
      }
      assert keys[..|keys|] == keys;
    }
  }
}
