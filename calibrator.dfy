/** The calibrator page (calibrator_widget.py): finding and normalising
    the board/module/parameter database, ordering a module's parameter
    keys and a choice parameter's options, and the Get/Set rules of one
    parameter row. */
module Calibrator {
  import opened Wrappers
  import opened Text
  import Codec

  // ---------------------------------------------------------------------
  // JSON documents
  // ---------------------------------------------------------------------

  /** A value as `json.load` builds it; an object keeps its keys in
      document order, as a Python dict does. */
  datatype Json =
    | Obj(fields: seq<(string, Json)>)
    | Str(s: string)
    | Num(n: int)
    | Bool(b: bool)
    | Null
    | Arr(items: seq<Json>)

  /** `d.get(key)`. */
  function Get(fields: seq<(string, Json)>, key: string): Option<Json> {
    if fields == [] then None
    else if fields[0].0 == key then Some(fields[0].1)
    else Get(fields[1..], key)
  }

  /** `list(d.keys())`. */
  function Keys(fields: seq<(string, Json)>): (ks: seq<string>)
    ensures |ks| == |fields|
  {
    if fields == [] then [] else [fields[0].0] + Keys(fields[1..])
  }

  /** `key in d and isinstance(d[key], dict)`. */
  predicate DictAt(fields: seq<(string, Json)>, key: string) {
    Get(fields, key).Some? && Get(fields, key).value.Obj?
  }

  /** `all(isinstance(v, dict) for v in d.values())`. */
  predicate AllDicts(fields: seq<(string, Json)>) {
    forall i | 0 <= i < |fields| :: fields[i].1.Obj?
  }

  /** The normalised shape: an object whose `cartes` is an object. */
  predicate IsSchema(j: Json) {
    j.Obj? && DictAt(j.fields, "cartes")
  }

  const SchemaError: string := "Sch\U{E9}ma JSON non reconnu (cl\U{E9} 'cartes' absente ou invalide)."

  /** `_normalize_schema`: a dict-valued `cartes` is kept as it is; else a
      dict-valued `boards`, then `cards`, becomes the `cartes` of a new
      object; else a non-empty object whose values are all objects is
      itself wrapped as `cartes`; anything else is refused. */
  function NormalizeSchema(raw: Json): (r: Result<Json, string>)
    ensures r.Ok? ==> IsSchema(r.value)
    ensures r.Ok? <==> (raw.Obj? && (DictAt(raw.fields, "cartes") || DictAt(raw.fields, "boards")
      || DictAt(raw.fields, "cards") || (raw.fields != [] && AllDicts(raw.fields))))
    ensures r.Err? ==> r.error == SchemaError
  {
    if raw.Obj? && DictAt(raw.fields, "cartes") then Ok(raw)
    else if raw.Obj? && DictAt(raw.fields, "boards") then Ok(Obj([("cartes", Get(raw.fields, "boards").value)]))
    else if raw.Obj? && DictAt(raw.fields, "cards") then Ok(Obj([("cartes", Get(raw.fields, "cards").value)]))
    else if raw.Obj? && raw.fields != [] && AllDicts(raw.fields) then Ok(Obj([("cartes", raw)]))
    else Err(SchemaError)
  }

  /** Which table becomes `cartes`: `cartes` itself before `boards`,
      `boards` before `cards`, and the whole document only when none of
      the three is an object. */
  lemma SchemaPrecedence(raw: Json)
    requires raw.Obj?
    ensures DictAt(raw.fields, "cartes") ==> NormalizeSchema(raw) == Ok(raw)
    ensures !DictAt(raw.fields, "cartes") && DictAt(raw.fields, "boards") ==>
      Get(NormalizeSchema(raw).value.fields, "cartes") == Get(raw.fields, "boards")
    ensures !DictAt(raw.fields, "cartes") && !DictAt(raw.fields, "boards") && DictAt(raw.fields, "cards") ==>
      Get(NormalizeSchema(raw).value.fields, "cartes") == Get(raw.fields, "cards")
    ensures (!DictAt(raw.fields, "cartes") && !DictAt(raw.fields, "boards") && !DictAt(raw.fields, "cards")
      && NormalizeSchema(raw).Ok?) ==> Get(NormalizeSchema(raw).value.fields, "cartes") == Some(raw)
  {
  }

  /** Normalising is idempotent: a normalised document is kept as it is. */
  lemma NormalizeIdempotent(raw: Json)
    requires NormalizeSchema(raw).Ok?
    ensures NormalizeSchema(NormalizeSchema(raw).value) == NormalizeSchema(raw)
  {
  }

  /** `d[key] = v`: an existing key keeps its place and takes the new
      value; a new key goes last. */
  function SetField(fields: seq<(string, Json)>, key: string, v: Json): (r: seq<(string, Json)>)
  {
    if fields == [] then [(key, v)]
    else if fields[0].0 == key then [(key, v)] + fields[1..]
    else [fields[0]] + SetField(fields[1..], key, v)
  }

  /** `d.pop(key, None)`: the value of the first entry for `key`, and the
      object without it. */
  function PopField(fields: seq<(string, Json)>, key: string): (r: (Option<Json>, seq<(string, Json)>))
  {
    if fields == [] then (None, [])
    else if fields[0].0 == key then (Some(fields[0].1), fields[1..])
    else
      var rest := PopField(fields[1..], key);
      (rest.0, [fields[0]] + rest.1)
  }

  /** After `d[key] = v`, `d[key]` is `v` and every other key reads as
      before. */
  lemma {:induction false} SetFieldGet(fields: seq<(string, Json)>, key: string, v: Json, other: string)
    ensures Get(SetField(fields, key, v), key) == Some(v)
    ensures other != key ==> Get(SetField(fields, key, v), other) == Get(fields, other)
  {
    if fields != [] && fields[0].0 != key {
      SetFieldGet(fields[1..], key, v, other);
    }
  }

  /** The tag the loader adds is what the page pops back off, and an
      object that did not hold the key comes back exactly as it was. */
  lemma {:induction false} PopSetField(fields: seq<(string, Json)>, key: string, v: Json)
    requires Get(fields, key).None?
    ensures PopField(SetField(fields, key, v), key) == (Some(v), fields)
  {
    if fields != [] {
      assert fields[0].0 != key;
      var t := SetField(fields[1..], key, v);
      assert SetField(fields, key, v) == [fields[0]] + t;
      assert ([fields[0]] + t)[1..] == t;
      PopSetField(fields[1..], key, v);
      assert PopField([fields[0]] + t, key) == (Some(v), [fields[0]] + fields[1..]);
      assert [fields[0]] + fields[1..] == fields;
    } else {
      assert SetField(fields, key, v) == [(key, v)];
      assert [(key, v)][1..] == fields;
    }
  }

  /** Popping one key leaves every other key reading as before. */
  lemma {:induction false} PopFieldGet(fields: seq<(string, Json)>, key: string, other: string)
    requires other != key
    ensures Get(PopField(fields, key).1, other) == Get(fields, other)
  {
    if fields != [] && fields[0].0 != key {
      PopFieldGet(fields[1..], key, other);
    }
  }

  // ---------------------------------------------------------------------
  // Finding the database
  // ---------------------------------------------------------------------

  /** `os.path.join(dir, name)` for a plain file name. */
  function PathJoin(dir: string, name: string): string {
    if dir == [] then name
    else if dir[|dir| - 1] == '/' then dir + name
    else dir + "/" + name
  }

  const McuDatabase: string := "mcu_database.json"
  const MenzuConfig: string := "menzu_config.json"

  /** The files `load_config_any` tries, in order: the explicit path when
      one is given and not empty, then `mcu_database.json` in the working
      directory and beside the program, then `menzu_config.json` in the
      same two places. */
  function Candidates(jsonPath: Option<string>, cwd: string, here: string): (cs: seq<string>)
    ensures jsonPath.Some? && jsonPath.value != [] ==> |cs| == 5 && cs[0] == jsonPath.value
    ensures !(jsonPath.Some? && jsonPath.value != []) ==> |cs| == 4
    ensures cs[|cs| - 4..] == [PathJoin(cwd, McuDatabase), PathJoin(here, McuDatabase),
                               PathJoin(cwd, MenzuConfig), PathJoin(here, MenzuConfig)]
  {
    (if jsonPath.Some? && jsonPath.value != [] then [jsonPath.value] else [])
    + [PathJoin(cwd, McuDatabase), PathJoin(here, McuDatabase),
       PathJoin(cwd, MenzuConfig), PathJoin(here, MenzuConfig)]
  }

  /** A file that exists: either `json.load` fails on it with a message,
      or it holds a document. */
  datatype FileState = Unloadable(reason: string) | Document(doc: Json)

  /** What one existing candidate gives: the normalised document, or the
      message of the exception raised while loading or normalising it.
      None when the file does not exist. */
  function Attempt(fs: map<string, FileState>, path: string): Option<Result<Json, string>> {
    if path !in fs then None
    else match fs[path]
      case Unloadable(reason) => Some(Err(reason))
      case Document(doc) => Some(NormalizeSchema(doc))
  }

  /** The winning document, tagged with where it came from. */
  function Tagged(data: Json, path: string): Json
    requires data.Obj?
  {
    Obj(SetField(data.fields, "_loaded_from", Str(path)))
  }

  /** `f"{p} -> {e}"` */
  function Failure(path: string, message: string): string {
    path + " -> " + message
  }

  /** `"\n  - ".join(tried)` */
  function JoinTried(tried: seq<string>): string {
    if tried == [] then []
    else if |tried| == 1 then tried[0]
    else tried[0] + "\n  - " + JoinTried(tried[1..])
  }

  /** The `FileNotFoundError` message, listing every failure. */
  function NotFoundMessage(tried: seq<string>): string {
    "Impossible de charger un JSON valide parmi mcu_database.json / menzu_config.json."
    + (if tried == [] then "" else "\n  - " + JoinTried(tried))
  }

  /** What a candidate adds to `tried`: its failure, when it exists and
      does not give a document. */
  function Recorded(a: Option<Result<Json, string>>, path: string): seq<string> {
    if a.Some? && a.value.Err? then [Failure(path, a.value.error)] else []
  }

  /** The candidates from the first on, with `tried` failures already
      recorded. */
  function LoadFrom(cands: seq<string>, fs: map<string, FileState>, tried: seq<string>): Result<Json, string> {
    if cands == [] then Err(NotFoundMessage(tried))
    else
      var a := Attempt(fs, cands[0]);
      if a.Some? && a.value.Ok? then Ok(Tagged(a.value.value, cands[0]))
      else LoadFrom(cands[1..], fs, tried + Recorded(a, cands[0]))
  }

  /** The failures of the candidates, in order: one per existing file that
      does not give a document. */
  function Failures(cands: seq<string>, fs: map<string, FileState>): seq<string> {
    if cands == [] then []
    else Recorded(Attempt(fs, cands[0]), cands[0]) + Failures(cands[1..], fs)
  }

  /** Some candidate gives a document. */
  predicate AnyLoads(cands: seq<string>, fs: map<string, FileState>) {
    exists k | 0 <= k < |cands| :: Attempt(fs, cands[k]).Some? && Attempt(fs, cands[k]).value.Ok?
  }

  /** A candidate list that does not start with a loading file loads
      exactly when its tail does. */
  lemma AnyLoadsTail(cands: seq<string>, fs: map<string, FileState>)
    requires cands != []
    requires !(Attempt(fs, cands[0]).Some? && Attempt(fs, cands[0]).value.Ok?)
    ensures AnyLoads(cands, fs) <==> AnyLoads(cands[1..], fs)
  {
    if AnyLoads(cands, fs) {
      var k :| 0 <= k < |cands| && Attempt(fs, cands[k]).Some? && Attempt(fs, cands[k]).value.Ok?;
      assert cands[1..][k - 1] == cands[k];
    }
    if AnyLoads(cands[1..], fs) {
      var k :| 0 <= k < |cands[1..]| && Attempt(fs, cands[1..][k]).Some? && Attempt(fs, cands[1..][k]).value.Ok?;
      assert cands[k + 1] == cands[1..][k];
    }
  }

  /** The candidates before `k` give no document. */
  predicate NoneLoadsBefore(cands: seq<string>, fs: map<string, FileState>, k: int)
    requires k <= |cands|
  {
    forall j | 0 <= j < k :: !(Attempt(fs, cands[j]).Some? && Attempt(fs, cands[j]).value.Ok?)
  }

  /** The first candidate that gives a document wins, tagged with its
      path; the files before it are missing or fail. */
  lemma {:induction false} LoadFromFirst(cands: seq<string>, fs: map<string, FileState>, tried: seq<string>)
    ensures LoadFrom(cands, fs, tried).Ok? <==> AnyLoads(cands, fs)
    ensures LoadFrom(cands, fs, tried).Ok? ==> exists k | 0 <= k < |cands| ::
      && Attempt(fs, cands[k]).Some? && Attempt(fs, cands[k]).value.Ok?
      && NoneLoadsBefore(cands, fs, k)
      && LoadFrom(cands, fs, tried) == Ok(Tagged(Attempt(fs, cands[k]).value.value, cands[k]))
  {
    if cands != [] {
      var a := Attempt(fs, cands[0]);
      if a.Some? && a.value.Ok? {
        assert AnyLoads(cands, fs);
        assert NoneLoadsBefore(cands, fs, 0);
      } else {
        var next := tried + Recorded(a, cands[0]);
        LoadFromFirst(cands[1..], fs, next);
        AnyLoadsTail(cands, fs);
        if LoadFrom(cands, fs, tried).Ok? {
          var k :| 0 <= k < |cands[1..]|
            && Attempt(fs, cands[1..][k]).Some? && Attempt(fs, cands[1..][k]).value.Ok?
            && NoneLoadsBefore(cands[1..], fs, k)
            && LoadFrom(cands[1..], fs, next) == Ok(Tagged(Attempt(fs, cands[1..][k]).value.value, cands[1..][k]));
          assert cands[k + 1] == cands[1..][k];
          forall j | 0 <= j < k + 1
            ensures !(Attempt(fs, cands[j]).Some? && Attempt(fs, cands[j]).value.Ok?)
          {
            if j > 0 {
              assert cands[j] == cands[1..][j - 1];
            }
          }
          assert NoneLoadsBefore(cands, fs, k + 1);
        }
      }
    }
  }

  /** When no candidate gives a document, the error lists the failures of
      all existing files, in order. */
  lemma {:induction false} LoadFromFails(cands: seq<string>, fs: map<string, FileState>, tried: seq<string>)
    ensures LoadFrom(cands, fs, tried).Err? ==>
      LoadFrom(cands, fs, tried) == Err(NotFoundMessage(tried + Failures(cands, fs)))
  {
    if cands == [] {
      assert tried + [] == tried;
    } else {
      var a := Attempt(fs, cands[0]);
      if !(a.Some? && a.value.Ok?) {
        var r := Recorded(a, cands[0]);
        LoadFromFails(cands[1..], fs, tried + r);
        Regroup(tried, r, Failures(cands[1..], fs));
      }
    }
  }

  /** The page pops the tag back off: it gets the path the document came
      from and the normalised document as it was, when that document did
      not hold the key itself. */
  lemma TagRoundTrip(data: Json, path: string)
    requires data.Obj? && Get(data.fields, "_loaded_from").None?
    ensures PopField(Tagged(data, path).fields, "_loaded_from") == (Some(Str(path)), data.fields)
  {
    PopSetField(data.fields, "_loaded_from", Str(path));
  }

  /** What the loader returns is an object whose `cartes` is an object,
      and stays so once the tag is popped. */
  lemma LoadedIsSchema(cands: seq<string>, fs: map<string, FileState>, tried: seq<string>)
    requires LoadFrom(cands, fs, tried).Ok?
    ensures LoadFrom(cands, fs, tried).value.Obj?
    ensures DictAt(PopField(LoadFrom(cands, fs, tried).value.fields, "_loaded_from").1, "cartes")
  {
    LoadFromFirst(cands, fs, tried);
    var k :| 0 <= k < |cands|
      && Attempt(fs, cands[k]).Some? && Attempt(fs, cands[k]).value.Ok?
      && NoneLoadsBefore(cands, fs, k)
      && LoadFrom(cands, fs, tried) == Ok(Tagged(Attempt(fs, cands[k]).value.value, cands[k]));
    var doc := Attempt(fs, cands[k]).value.value;
    assert IsSchema(doc);
    SetFieldGet(doc.fields, "_loaded_from", Str(cands[k]), "cartes");
    PopFieldGet(SetField(doc.fields, "_loaded_from", Str(cands[k])), "_loaded_from", "cartes");
  }

  /** One candidate of the loop: it wins when it gives a document, and is
      otherwise recorded (or skipped) before the rest are tried. */
  lemma LoadStep(cands: seq<string>, fs: map<string, FileState>, tried: seq<string>, i: nat)
    requires i < |cands|
    ensures var a := Attempt(fs, cands[i]);
      LoadFrom(cands[i..], fs, tried) ==
        if a.Some? && a.value.Ok? then Ok(Tagged(a.value.value, cands[i]))
        else LoadFrom(cands[i + 1..], fs, tried + Recorded(a, cands[i]))
  {
    assert cands[i..][0] == cands[i];
    assert cands[i..][1..] == cands[i + 1..];
  }

  /** The body of the loop of `load_config_any` for one path: nothing
      when the file does not exist, the reason when reading or parsing it
      raises, else what `normalize_schema` makes of the document. */
  method TryCandidate(p: string, fs: map<string, FileState>) returns (a: Option<Result<Json, string>>)
    ensures a == Attempt(fs, p)
    ensures a.Some? && a.value.Ok? ==> a.value.value.Obj?
  {
    if p !in fs {
      return None;
    }
    match fs[p]
    case Unloadable(reason) =>
      a := Some(Err(reason));
    case Document(raw) =>
      a := Some(NormalizeSchema(raw));
  }

  /** `load_config_any`: the candidates are tried in order; a missing file
      is skipped, a failing one is recorded in `tried`, and the first one
      that loads and normalises is returned with `_loaded_from` set to its
      path. With none, `FileNotFoundError` lists what failed. */
  method LoadConfigAny(jsonPath: Option<string>, cwd: string, here: string, fs: map<string, FileState>)
    returns (r: Result<Json, string>)
    ensures r == LoadFrom(Candidates(jsonPath, cwd, here), fs, [])
  {
    r := LoadFromList(Candidates(jsonPath, cwd, here), fs);
  }

  /** The loop of `load_config_any` over its candidate paths. */
  method LoadFromList(candidates: seq<string>, fs: map<string, FileState>) returns (r: Result<Json, string>)
    ensures r == LoadFrom(candidates, fs, [])
  {
    var tried: seq<string> := [];
    var i := 0;
    while i < |candidates|
      invariant 0 <= i <= |candidates|
      invariant LoadFrom(candidates, fs, []) == LoadFrom(candidates[i..], fs, tried)
    {
      var p := candidates[i];
      LoadStep(candidates, fs, tried, i);
      var a := TryCandidate(p, fs);
      if a.Some? && a.value.Ok? {
        return Ok(Tagged(a.value.value, p));
      }
      tried := tried + Recorded(a, p);
      i := i + 1;
    }
    assert candidates[i..] == [];
    return Err(NotFoundMessage(tried));
  }
}
