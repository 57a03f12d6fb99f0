/** The auto-responder's rule list (receive_sequence_manager.py): an
    ordered list of trigger/response rules kept in a JSON file, and the
    first-match lookup run on every received line. */
module ReceiveSequences {
  import opened Text
  import opened Wrappers
  import opened Store
  import opened Lists
  import Utf8
  import Codec

  /** One rule as stored in the JSON list. Every key may be absent; the
      code reads each with a default. */
  datatype Rule = Rule(
    name: Option<string>,
    enabled: Option<bool>,
    trigger: Option<string>,
    mode: Option<string>,
    response: Option<string>,
    responseMode: Option<string>)

  /** `rule.get("enabled", True)`: a rule without the key is enabled. */
  predicate Enabled(rule: Rule) {
    rule.enabled != Some(false)
  }

  /** The dictionary returned for a matching rule. */
  datatype Response = Response(sequence: string, mode: string)

  function ResponseOf(rule: Rule): (r: Response)
    ensures r.sequence == Get(rule.response, "")
    ensures r.mode == Get(rule.responseMode, "ASCII")
  {
    Response(Get(rule.response, ""), Get(rule.responseMode, "ASCII"))
  }

  /** The bytes a HEX trigger stands for: "0x" and "0X" removed, commas
      read as spaces, whitespace-separated base-16 tokens. */
  function HexTriggerBytes(trigger: string): Result<seq<Byte>, Codec.ValueError> {
    var cleaned := Replace(Replace(Replace(trigger, "0x", ""), "0X", ""), ",", " ");
    Codec.EncodeTokens(Words(cleaned), 16)
  }

  /** `_match`: an empty trigger never matches; an ASCII trigger must equal
      the stripped UTF-8 text of the line; a HEX trigger's bytes must occur
      in the line, and a trigger that does not parse simply does not
      match; any other mode never matches. */
  function Match(data: seq<Byte>, trigger: string, mode: string): (r: bool)
    ensures trigger == [] ==> !r
    ensures trigger != [] && mode == "ASCII" ==> (r <==> trigger == Strip(Utf8.Decode(data)))
    ensures trigger != [] && mode == "HEX" ==>
      (r <==> HexTriggerBytes(trigger).Ok? && exists i :: OccursAt(HexTriggerBytes(trigger).value, data, i))
    ensures mode != "ASCII" && mode != "HEX" ==> !r
  {
    if trigger == [] then false
    else if mode == "ASCII" then trigger == Strip(Utf8.Decode(data))
    else if mode == "HEX" then
      match HexTriggerBytes(trigger)
      case Ok(p) => Occurs(p, data)
      case Err(_) => false
    else false
  }

  /** The rule fires on `data`: enabled, and its trigger matches under its mode. */
  predicate Fires(rule: Rule, data: seq<Byte>) {
    Enabled(rule) && Match(data, Get(rule.trigger, ""), Get(rule.mode, "ASCII"))
  }

  /** The response of the first rule that fires, None when none does. */
  function FirstResponse(rules: seq<Rule>, data: seq<Byte>): Option<Response> {
    if rules == [] then None
    else if Fires(rules[0], data) then Some(ResponseOf(rules[0]))
    else FirstResponse(rules[1..], data)
  }

  /** There is a response exactly when some rule fires. */
  lemma {:induction false} FirstResponseNone(rules: seq<Rule>, data: seq<Byte>)
    ensures FirstResponse(rules, data).None? <==> forall i | 0 <= i < |rules| :: !Fires(rules[i], data)
  {
    if rules != [] && !Fires(rules[0], data) {
      var rest := rules[1..];
      FirstResponseNone(rest, data);
      assert FirstResponse(rules, data) == FirstResponse(rest, data);
      if FirstResponse(rest, data).None? {
        forall i | 0 <= i < |rules|
          ensures !Fires(rules[i], data)
        {
          if i > 0 {
            assert rules[i] == rest[i - 1];
          }
        }
      } else {
        var i :| 0 <= i < |rest| && Fires(rest[i], data);
        assert rules[i + 1] == rest[i];
      }
    }
  }

  /** First match wins: a response is that of the earliest rule that
      fires, and the rules after it are never consulted. */
  lemma {:induction false} FirstResponseEarliest(rules: seq<Rule>, data: seq<Byte>)
    ensures FirstResponse(rules, data).Some? ==> exists k | 0 <= k < |rules| ::
      && Fires(rules[k], data)
      && (forall j | 0 <= j < k :: !Fires(rules[j], data))
      && FirstResponse(rules, data) == Some(ResponseOf(rules[k]))
  {
    if rules != [] && !Fires(rules[0], data) {
      var rest := rules[1..];
      FirstResponseEarliest(rest, data);
      assert FirstResponse(rules, data) == FirstResponse(rest, data);
      if FirstResponse(rest, data).Some? {
        var k :| 0 <= k < |rest| && Fires(rest[k], data)
          && (forall j | 0 <= j < k :: !Fires(rest[j], data))
          && FirstResponse(rest, data) == Some(ResponseOf(rest[k]));
        assert rules[k + 1] == rest[k];
        forall j | 0 <= j < k + 1
          ensures !Fires(rules[j], data)
        {
          if j > 0 {
            assert rules[j] == rest[j - 1];
          }
        }
      }
    } else if rules != [] {
      assert FirstResponse(rules, data) == Some(ResponseOf(rules[0]));
    }
  }

  /** Rules behind a firing prefix make no difference. */
  lemma {:induction false} FirstResponseAppend(a: seq<Rule>, b: seq<Rule>, data: seq<Byte>)
    ensures FirstResponse(a, data).Some? ==> FirstResponse(a + b, data) == FirstResponse(a, data)
    ensures FirstResponse(a, data).None? ==> FirstResponse(a + b, data) == FirstResponse(b, data)
  {
    if a != [] {
      assert (a + b)[1..] == a[1..] + b;
      FirstResponseAppend(a[1..], b, data);
    } else {
      assert a + b == b;
    }
  }

  /** A rule whose trigger is the HEX display of a byte string reads back
      as exactly that byte string. */
  lemma HexTriggerOfDisplay(p: seq<Byte>)
    ensures HexTriggerBytes(Codec.FormatHex(p)) == Ok(p)
  {
    var pairs := seq(|p|, i requires 0 <= i < |p| => Codec.HexPair(p[i]));
    var s := Codec.FormatHex(p);
    Codec.JoinSpaceLacks(pairs, 'x');
    Codec.JoinSpaceLacks(pairs, 'X');
    Codec.JoinSpaceLacks(pairs, ',');
    Codec.ReplaceWithout(s, "0x", "", 1);
    Codec.ReplaceWithout(s, "0X", "", 1);
    Codec.ReplaceWithout(s, ",", " ", 0);
    Codec.HexDisplayRoundTrip(p);
  }

  /** A HEX trigger typed as the terminal displays bytes fires on exactly
      the lines that contain those bytes. */
  lemma HexTriggerMatchesDisplayed(p: seq<Byte>, data: seq<Byte>)
    requires p != []
    ensures Match(data, Codec.FormatHex(p), "HEX") <==> exists i :: OccursAt(p, data, i)
  {
    HexTriggerOfDisplay(p);
    var pairs := seq(|p|, i requires 0 <= i < |p| => Codec.HexPair(p[i]));
    assert |Codec.FormatHex(p)| >= |pairs[0]|;
  }

  /** A HEX trigger with no tokens (such as ",") stands for `b''`, which
      occurs in every line: it fires on everything. */
  lemma CommaTriggerMatchesAll(trigger: string, data: seq<Byte>)
    requires trigger == ","
    ensures Match(data, trigger, "HEX")
  {
    assert Replace(trigger, "0x", "") == trigger;
    assert Replace(trigger, "0X", "") == trigger;
    assert Replace(trigger, ",", " ") == " ";
    assert LStrip(" ") == [];
    assert Words(" ") == [];
    assert OccursAt([], data, 0);
  }

  /** A Decimal trigger never matches: the code has no Decimal branch. */
  lemma DecimalTriggerNeverMatches(rule: Rule, data: seq<Byte>)
    requires rule.mode == Some("Decimal")
    ensures !Fires(rule, data)
  {
  }

  class ReceiveSequenceManager {
    var rules: seq<Rule>
    var currentFilePath: Option<string>
    /** The files as `open`/`json.load` would find them. */
    var files: map<string, FileContent<Rule>>

    constructor(files0: map<string, FileContent<Rule>>)
      ensures rules == [] && currentFilePath == None && files == files0
    {
      rules := [];
      currentFilePath := None;
      files := files0;
    }

    /** `load_from_file`: a readable file installs its list (an empty one
        when the document is not a list) and is remembered; a missing file
        or one whose reading raises `JSONDecodeError` or `OSError` clears
        both the rules and the path; a file that is not UTF-8 raises
        `UnicodeDecodeError` out of the method, with nothing changed. */
    method LoadFromFile(path: string) returns (ok: bool, raised: bool)
      modifies this
      ensures files == old(files)
      ensures raised <==> path in files && files[path].Undecodable?
      ensures raised ==> !ok && unchanged(this)
      ensures ok <==> path in files && Readable(files[path])
      ensures ok ==> rules == Loaded(files[path]) && currentFilePath == Some(path)
      ensures !ok && !raised ==> rules == [] && currentFilePath == None
    {
      raised := false;
      if path in files && files[path].Undecodable? {
        return false, true;
      }
      if path in files && Readable(files[path]) {
        rules := Loaded(files[path]);
        currentFilePath := Some(path);
        ok := true;
      } else {
        rules := [];
        currentFilePath := None;
        ok := false;
      }
    }

    /** `save_to_file`: `writable` is whether the system lets the file be
        created and written. A path with no directory part always fails,
        since `os.makedirs("")` raises. On success the file holds the rules
        and the path is remembered; on failure nothing changes. */
    method SaveToFile(path: string, writable: bool) returns (ok: bool)
      modifies this
      ensures ok <==> writable && HasDirectory(path)
      ensures rules == old(rules)
      ensures ok ==> files == old(files)[path := Items(rules)] && currentFilePath == Some(path)
      ensures !ok ==> files == old(files) && currentFilePath == old(currentFilePath)
    {
      if writable && HasDirectory(path) {
        files := files[path := Items(rules)];
        currentFilePath := Some(path);
        ok := true;
      } else {
        ok := false;
      }
    }

    /** `save_current_file`: writes only when a path is remembered. */
    method SaveCurrentFile(writable: bool) returns (ok: bool)
      modifies this
      ensures rules == old(rules) && currentFilePath == old(currentFilePath)
      ensures ok <==> Remembered(currentFilePath) && writable && HasDirectory(currentFilePath.value)
      ensures ok ==> files == old(files)[currentFilePath.value := Items(rules)]
      ensures !ok ==> files == old(files)
    {
      if Remembered(currentFilePath) {
        ok := SaveToFile(currentFilePath.value, writable);
      } else {
        ok := false;
      }
    }

    /** `new_set`: no rules, no file. */
    method NewSet()
      modifies this
      ensures rules == [] && currentFilePath == None && files == old(files)
    {
      rules := [];
      currentFilePath := None;
    }

    /** `add_rule`: appended at the end, then saved to the current file. */
    method AddRule(rule: Rule, writable: bool)
      modifies this
      ensures rules == old(rules) + [rule]
      ensures currentFilePath == old(currentFilePath)
      ensures Saved(old(files), writable) == files
    {
      rules := rules + [rule];
      var _ := SaveCurrentFile(writable);
    }

    /** `edit_rule`: only an index inside the list is replaced and saved. */
    method EditRule(index: int, rule: Rule, writable: bool)
      modifies this
      ensures rules == ReplaceAt(old(rules), index, rule)
      ensures currentFilePath == old(currentFilePath)
      ensures files == if 0 <= index < |old(rules)| then Saved(old(files), writable) else old(files)
    {
      if 0 <= index < |rules| {
        rules := ReplaceAt(rules, index, rule);
        var _ := SaveCurrentFile(writable);
      }
    }

    /** `delete_rule`: only an index inside the list is removed and saved. */
    method DeleteRule(index: int, writable: bool)
      modifies this
      ensures rules == RemoveAt(old(rules), index)
      ensures currentFilePath == old(currentFilePath)
      ensures files == if 0 <= index < |old(rules)| then Saved(old(files), writable) else old(files)
    {
      if 0 <= index < |rules| {
        rules := RemoveAt(rules, index);
        var _ := SaveCurrentFile(writable);
      }
    }

    /** The files after the current rules are saved, if they are. */
    function Saved(before: map<string, FileContent<Rule>>, writable: bool): map<string, FileContent<Rule>>
      reads this
    {
      if Remembered(currentFilePath) && writable && HasDirectory(currentFilePath.value)
      then before[currentFilePath.value := Items(rules)]
      else before
    }

    /** `check_and_get_response`: scans the rules in order and answers
        with the first one that fires. */
    method CheckAndGetResponse(data: seq<Byte>) returns (r: Option<Response>)
      ensures r == FirstResponse(rules, data)
    {
      var i := 0;
      while i < |rules|
        invariant 0 <= i <= |rules|
        invariant FirstResponse(rules, data) == FirstResponse(rules[i..], data)
      {
        var rule := rules[i];
        assert rules[i..][1..] == rules[i + 1..];
        if Enabled(rule) && Match(data, Get(rule.trigger, ""), Get(rule.mode, "ASCII")) {
          return Some(ResponseOf(rule));
        }
        i := i + 1;
      }
      return None;
    }
  }
}
