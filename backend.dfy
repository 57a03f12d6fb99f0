/** The embedded shell client of the calibrator (serial_backend.py): each
    GET or SET is four shell lines, `cd /`, `cd <path>`, the command and
    `cd /`, each followed by a drain of the reply that stops when the line
    has been idle for a while or a maximum time has passed. The value is
    picked out of the third reply. */
module Backend {
  import opened Text
  import opened Wrappers
  import opened Port
  import Utf8

  // ---------------------------------------------------------------------
  // Module table
  // ---------------------------------------------------------------------

  /** `MODULE_PATHS`: calibrator module name to shell directory. */
  const ModulePaths: map<string, string> := map[
    "LoRaWAN" := "svc/net/lora",
    "LoRaWAN_at" := "svc/net/lora",
    "LoRaWAN_AT" := "svc/net/lora",
    "NVM" := "svc/nvm",
    "SYS" := "svc/sys",
    "GPS" := "svc/gps",
    "GPRS / GSM" := "svc/net/gprs",
    "GSM" := "svc/net/gprs",
    "MODBUS_Master" := "svc/net/modbus/master",
    "MODBUS_Slave" := "svc/net/modbus/slave",
    "ZigBee" := "svc/net/zigbee"
  ]

  /** `_module_path`: the name is stripped and looked up as is (case
      matters); an unknown name gives "". */
  function ModulePath(moduleName: string): (path: string)
    ensures path != [] <==> Strip(moduleName) in ModulePaths
    ensures Strip(moduleName) in ModulePaths ==> path == ModulePaths[Strip(moduleName)]
  {
    var name := Strip(moduleName);
    if name in ModulePaths then ModulePaths[name] else ""
  }

  /** Surrounding blanks are ignored, letter case is not. */
  lemma ModulePathExamples(padded: string, lower: string)
    requires padded == " GSM " && lower == "gsm"
    ensures ModulePath(padded) == "svc/net/gprs"
    ensures ModulePath(lower) == ""
  {
    assert Strip(padded) == Strip(padded[1..]) == Strip(padded[1..4]) == "GSM";
    assert !IsSpace(lower[0]) && !IsSpace(lower[2]);
    assert Strip(lower) == lower;
  }

  // ---------------------------------------------------------------------
  // Line terminator
  // ---------------------------------------------------------------------

  predicate EndsWithNewline(s: string) {
    s != [] && s[|s| - 1] == '\n'
  }

  /** `_write_line`'s text: a "\n" is added when missing, then every
      "\n" becomes "\r\n". */
  function Terminate(line: string): (r: string)
    ensures |r| >= 2 && r[|r| - 2..] == "\r\n"
    ensures forall i | 0 <= i < |r| && r[i] == '\n' :: i > 0 && r[i - 1] == '\r'
  {
    var l := if EndsWithNewline(line) then line else line + "\n";
    CrlfShape(l);
    Replace(l, "\n", "\r\n")
  }

  /** After the rewrite, each "\n" follows a "\r", and a text that ended
      in "\n" ends in "\r\n". */
  lemma CrlfShape(s: string)
    ensures var r := Replace(s, "\n", "\r\n");
      && (forall i | 0 <= i < |r| && r[i] == '\n' :: i > 0 && r[i - 1] == '\r')
      && (EndsWithNewline(s) ==> |r| >= 2 && r[|r| - 2..] == "\r\n")
  {
    CrlfFollows(s);
    if EndsWithNewline(s) {
      CrlfEnd(s);
    }
  }

  /** Every "\n" in `r` comes right after a "\r". */
  predicate NewlinesAfterReturn(r: string) {
    forall i | 0 <= i < |r| && r[i] == '\n' :: i > 0 && r[i - 1] == '\r'
  }

  /** Each "\n" of the rewritten text follows a "\r". */
  lemma {:induction false} CrlfFollows(s: string)
    ensures NewlinesAfterReturn(Replace(s, "\n", "\r\n"))
    decreases |s|
  {
    if |s| >= 1 {
      var r := Replace(s, "\n", "\r\n");
      var rest := Replace(s[1..], "\n", "\r\n");
      CrlfFollows(s[1..]);
      var head: string := if "\n" <= s then "\r\n" else [s[0]];
      assert r == head + rest;
      forall i | 0 <= i < |r| && r[i] == '\n'
        ensures i > 0 && r[i - 1] == '\r'
      {
        if i >= |head| {
          var j := i - |head|;
          assert rest[j] == '\n';
          assert r[i - 1] == rest[j - 1];
        }
      }
    }
  }

  /** A text that ended in "\n" ends in "\r\n" after the rewrite. */
  lemma {:induction false} CrlfEnd(s: string)
    requires EndsWithNewline(s)
    ensures var r := Replace(s, "\n", "\r\n");
      |r| >= 2 && r[|r| - 2..] == "\r\n"
    decreases |s|
  {
    var r := Replace(s, "\n", "\r\n");
    var rest := Replace(s[1..], "\n", "\r\n");
    var head: string := if "\n" <= s then "\r\n" else [s[0]];
    assert r == head + rest;
    if |s| == 1 {
      assert s == "\n";
      assert rest == [];
    } else {
      assert s[1..][|s[1..]| - 1] == '\n';
      CrlfEnd(s[1..]);
      assert r[|r| - 2..] == rest[|rest| - 2..];
    }
  }

  /** A line without "\n" goes out as the line followed by "\r\n". */
  lemma TerminateBare(line: string)
    requires forall i | 0 <= i < |line| :: line[i] != '\n'
    ensures Terminate(line) == line + "\r\n"
  {
    var l := line + "\n";
    assert !EndsWithNewline(line) by {
      if line != [] {
        assert line[|line| - 1] != '\n';
      }
    }
    ReplacePlainThenNewline(line);
  }

  lemma {:induction false} ReplacePlainThenNewline(s: string)
    requires forall i | 0 <= i < |s| :: s[i] != '\n'
    ensures Replace(s + "\n", "\n", "\r\n") == s + "\r\n"
    decreases |s|
  {
    if s == [] {
      assert s + "\n" == "\n";
      assert Replace("\n"[1..], "\n", "\r\n") == [];
    } else {
      assert (s + "\n")[1..] == s[1..] + "\n";
      assert (s + "\n")[0] == s[0] != '\n';
      ReplacePlainThenNewline(s[1..]);
    }
  }

  /** The bytes `_write_line` puts on the wire. */
  function Wire(line: string): seq<Byte> {
    Utf8.Encode(Terminate(line))
  }

  // ---------------------------------------------------------------------
  // Drain
  // ---------------------------------------------------------------------

  predicate AllReads(rs: seq<Event>) {
    forall i | 0 <= i < |rs| :: rs[i].Got?
  }

  /** The bytes the got returned, in order. */
  function DataOf(rs: seq<Event>): seq<Byte>
    requires AllReads(rs)
  {
    if rs == [] then [] else DataOf(rs[..|rs| - 1]) + rs[|rs| - 1].data
  }

  /** When data last came in: the time of the last read that returned
      something, or `start` when none did. */
  function LastData(rs: seq<Event>, start: int): int
    requires AllReads(rs)
  {
    if rs == [] then start
    else if rs[|rs| - 1].data != [] then rs[|rs| - 1].at
    else LastData(rs[..|rs| - 1], start)
  }

  /** The drain stops after the last of `rs`: it returned nothing and the
      line has been idle for `idle` ms, or `max` ms have passed in all. */
  predicate StopsAfter(rs: seq<Event>, start: int, idle: nat, max: nat)
    requires rs != [] && AllReads(rs)
  {
    var e := rs[|rs| - 1];
    (e.data == [] && e.at - LastData(rs, start) >= idle) || e.at - start >= max
  }

  /** `rs` is what one `_drain_until_idle(idle, max)` started at `start`
      got: at least one read, the stop condition holds after the last
      one and after no earlier one. */
  predicate DrainShape(rs: seq<Event>, start: int, idle: nat, max: nat) {
    && rs != [] && AllReads(rs)
    && StopsAfter(rs, start, idle, max)
    && forall k | 1 <= k < |rs| :: !StopsAfter(rs[..k], start, idle, max)
  }

  /** One more read of the drain: what it adds to the data, when data
      last came, and whether the drain stops after it. */
  lemma DrainStep(before: seq<Event>, e: Event, start: int, idle: nat, max: nat)
    requires AllReads(before) && e.Got?
    requires forall k | 1 <= k <= |before| :: !StopsAfter(before[..k], start, idle, max)
    ensures AllReads(before + [e])
    ensures DataOf(before + [e]) == DataOf(before) + e.data
    ensures LastData(before + [e], start) == if e.data != [] then e.at else LastData(before, start)
    ensures EndTime(before + [e], start) == e.at
    ensures StopsAfter(before + [e], start, idle, max) <==>
      (e.data == [] && e.at - LastData(before, start) >= idle) || e.at - start >= max
    ensures !StopsAfter(before + [e], start, idle, max) ==>
      forall k | 1 <= k <= |before| + 1 :: !StopsAfter((before + [e])[..k], start, idle, max)
    ensures StopsAfter(before + [e], start, idle, max) ==> DrainShape(before + [e], start, idle, max)
  {
    var got := before + [e];
    assert got[..|got| - 1] == before;
    forall k | 1 <= k <= |before|
      ensures !StopsAfter(got[..k], start, idle, max)
    {
      assert got[..k] == before[..k];
    }
    assert got[..|got|] == got;
  }

  // ---------------------------------------------------------------------
  // Reply extraction
  // ---------------------------------------------------------------------

  predicate StartsWith(s: string, p: string) {
    p <= s
  }

  /** A shell prompt echoed back. */
  predicate IsPrompt(s: string) {
    StartsWith(s, "user@") || StartsWith(s, "root@") || StartsWith(s, "root/")
  }

  /** A reply line worth returning: not blank, not a prompt, not the echo
      of a `get` command (in any letter case). */
  predicate Accepted(line: string) {
    var s := Strip(line);
    s != [] && !IsPrompt(s) && !StartsWith(Lower(s), "get ")
  }

  /** The index of the first accepted line, `|lines|` when there is none. */
  function FirstAccepted(lines: seq<string>): (k: nat)
    ensures k <= |lines|
    ensures forall j | 0 <= j < k :: !Accepted(lines[j])
    ensures k < |lines| ==> Accepted(lines[k])
  {
    if lines == [] then 0
    else if Accepted(lines[0]) then 0
    else 1 + FirstAccepted(lines[1..])
  }

  /** What `_extract_value_from_chunk` returns: the first accepted line,
      stripped; the whole chunk stripped when no line is accepted. */
  function Extracted(chunk: string): (r: string)
  {
    var lines := SplitLines(chunk);
    var k := FirstAccepted(lines);
    if k < |lines| then Strip(lines[k]) else Strip(chunk)
  }

  /** When some reply line qualifies, the value is never a prompt, a blank
      or a `get` echo, and carries no surrounding blanks. */
  lemma ExtractedIsClean(chunk: string)
    requires exists j | 0 <= j < |SplitLines(chunk)| :: Accepted(SplitLines(chunk)[j])
    ensures var r := Extracted(chunk);
      r != [] && !IsPrompt(r) && !StartsWith(Lower(r), "get ") && Strip(r) == r
  {
    var lines := SplitLines(chunk);
    var k := FirstAccepted(lines);
    var j :| 0 <= j < |lines| && Accepted(lines[j]);
    assert k < |lines|;
    var s := Strip(lines[k]);
    assert Accepted(lines[k]);
    StripSpec(lines[k]);
    StripOfStripped(s);
  }

  /** The GET and SET texts returned without touching the port. */
  function UnknownModule(moduleName: string): string {
    "[ERREUR] Chemin inconnu pour module '" + moduleName + "'"
  }

  const OfflineGet: string := "[OFFLINE] GET ignor\U{E9} (aucun port connect\U{E9})"
  const OfflineSet: string := "[OFFLINE] SET ignor\U{E9} (aucun port connect\U{E9})"

  /** The SET command line: bare when there is no value or it is "". */
  function SetCommand(key: string, value: Option<string>): (cmd: string)
    ensures value.None? || value.value == "" ==> cmd == "set " + key
    ensures value.Some? && value.value != "" ==> cmd == "set " + key + " " + value.value
  {
    if value.None? || value.value == "" then "set " + key else "set " + key + " " + value.value
  }

  /** The clock after a drain. */
  function EndTime(rs: seq<Event>, start: int): int
    requires AllReads(rs)
  {
    if rs == [] then start else rs[|rs| - 1].at
  }

  /** The events after one exchange that follows `before`: each of the four
      lines written, then its reply read. */
  function Transcript(before: seq<Event>, path: string, command: string, replies: seq<seq<Event>>): seq<Event>
    requires |replies| == 4
  {
    before + [Wrote(Wire("cd /"))] + replies[0] + [Wrote(Wire("cd " + path))] + replies[1]
    + [Wrote(Wire(command))] + replies[2] + [Wrote(Wire("cd /"))] + replies[3]
  }

  /** The four drains of an exchange, each starting when the previous one
      stopped; the third, which carries the answer, waits longer. */
  predicate Drains(replies: seq<seq<Event>>, start: int) {
    && |replies| == 4
    && DrainShape(replies[0], start, 120, 1500)
    && DrainShape(replies[1], EndTime(replies[0], start), 120, 1500)
    && DrainShape(replies[2], EndTime(replies[1], start), 250, 3000)
    && DrainShape(replies[3], EndTime(replies[2], start), 120, 1500)
  }

  /** Four drains run back to back, each from where the last one ended. */
  lemma ExchangeDrains(r0: seq<Event>, r1: seq<Event>, r2: seq<Event>, r3: seq<Event>, t0: int)
    requires DrainShape(r0, t0, 120, 1500)
    requires DrainShape(r1, EndTime(r0, t0), 120, 1500)
    requires DrainShape(r2, EndTime(r1, EndTime(r0, t0)), 250, 3000)
    requires DrainShape(r3, EndTime(r2, EndTime(r1, EndTime(r0, t0))), 120, 1500)
    ensures Drains([r0, r1, r2, r3], t0)
  {
    var replies := [r0, r1, r2, r3];
    assert replies[0] == r0 && replies[1] == r1 && replies[2] == r2 && replies[3] == r3;
    assert EndTime(r1, EndTime(r0, t0)) == EndTime(r1, t0);
    assert EndTime(r2, EndTime(r1, EndTime(r0, t0))) == EndTime(r2, t0);
  }

  // ---------------------------------------------------------------------
  // The backend
  // ---------------------------------------------------------------------

  class SerialBackend {
    var ser: SerialPort?
    var port: Option<string>

    constructor()
      ensures ser == null && port == None
    {
      ser := null;
      port := None;
    }

    /** `is_connected`: a port is attached and open. */
    predicate IsConnected()
      reads this, ser
    {
      ser != null && ser.isOpen
    }

    /** The app hands its open port, and the port name from its settings,
        to the backend. */
    method Attach(p: SerialPort, name: Option<string>)
      modifies this
      ensures ser == p && port == name
    {
      ser := p;
      port := name;
    }

    /** `disconnect`: the port is closed if there is one (an exception from
        `close` is swallowed) and forgotten either way. */
    method Disconnect()
      modifies this, ser
      ensures ser == null && port == None && !IsConnected()
      ensures old(ser) != null && !old(ser).closeRaises ==> !old(ser).isOpen
    {
      if ser != null {
        var _ := ser.Close();
      }
      ser := null;
      port := None;
    }

    /** `_write_line`: nothing when offline; otherwise the terminated line
        as UTF-8, or the port's exception when the device is failing. */
    method WriteLine(line: string) returns (raised: bool)
      modifies ser
      ensures raised == (old(IsConnected()) && old(ser.failing))
      ensures old(IsConnected()) && !raised ==> ser.events == old(ser.events) + [Wrote(Wire(line))]
      ensures ser != null ==>
        (ser.now == old(ser.now) && ser.script == old(ser.script)
         && ser.buffered == old(ser.buffered) && ser.isOpen == old(ser.isOpen)
         && ser.failing == old(ser.failing) && ser.failure == old(ser.failure))
      ensures (!old(IsConnected()) || raised) && ser != null ==> unchanged(ser)
    {
      if !IsConnected() {
        return false;
      }
      raised := ser.Write(Wire(line));
    }

    /** `_drain_until_idle(idle, max)`: "" when offline; the port's
        exception when the device is failing; otherwise blocking reads
        until the stop condition, and the bytes read, decoded as UTF-8
        with replacement. */
    method DrainUntilIdle(idle: nat, max: nat) returns (text: string, ghost got: seq<Event>, raised: bool)
      modifies ser
      ensures raised == (old(IsConnected()) && old(ser.failing))
      ensures !old(IsConnected()) || raised ==> text == "" && got == [] && (ser != null ==> unchanged(ser))
      ensures old(IsConnected()) && !raised ==>
        && IsConnected() && ser.failing == old(ser.failing) && ser.failure == old(ser.failure)
        && ser.events == old(ser.events) + got
        && DrainShape(got, old(ser.now), idle, max)
        && ser.now == EndTime(got, old(ser.now))
        && text == Utf8.Decode(DataOf(got))
    {
      got := [];
      if !IsConnected() {
        return "", got, false;
      }
      var start := ser.now;
      var last := start;
      var buf: seq<Byte> := [];
      var stopped := false;
      while !stopped
        invariant ser.isOpen && ser.failing == old(ser.failing) && ser.failure == old(ser.failure)
        invariant ser.events == old(ser.events) + got
        invariant AllReads(got) && last == LastData(got, start) && buf == DataOf(got)
        invariant ser.now == EndTime(got, start)
        invariant got == [] ==> unchanged(ser)
        invariant ser.failing ==> got == [] && !stopped
        invariant !stopped ==> ser.now - start < max || (got == [] && max == 0)
        invariant !stopped ==> forall k | 1 <= k <= |got| :: !StopsAfter(got[..k], start, idle, max)
        invariant stopped ==> DrainShape(got, start, idle, max)
        decreases !stopped, |ser.script|, |ser.buffered|, start + max - ser.now
      {
        var chunk, failed := ser.ReadBlocking();
        if failed {
          return "", got, true;
        }
        DrainStep(got, Got(chunk, ser.now), start, idle, max);
        got := got + [Got(chunk, ser.now)];
        if chunk != [] {
          buf := buf + chunk;
          last := ser.now;
        }
        stopped := (chunk == [] && ser.now - last >= idle) || ser.now - start >= max;
      }
      text := Utf8.Decode(buf);
      raised := false;
    }

    /** `_extract_value_from_chunk`: the first reply line that is not
        blank, not a prompt and not a `get` echo, stripped; failing that,
        the whole chunk stripped. It never fails. */
    static method ExtractValueFromChunk(chunk: string) returns (value: string)
      ensures value == Extracted(chunk)
    {
      var lines := SplitLines(chunk);
      var i := 0;
      while i < |lines|
        invariant 0 <= i <= |lines|
        invariant FirstAccepted(lines) == i + FirstAccepted(lines[i..])
      {
        assert lines[i..][1..] == lines[i + 1..];
        var s := Strip(lines[i]);
        if s == [] {
          i := i + 1;
          continue;
        }
        if StartsWith(s, "user@") || StartsWith(s, "root@") || StartsWith(s, "root/") {
          i := i + 1;
          continue;
        }
        if StartsWith(Lower(s), "get ") {
          i := i + 1;
          continue;
        }
        return s;
      }
      return Strip(chunk);
    }

    /** One step of an exchange: a line written, then its reply drained.
        A failing device raises at the write, before anything is sent. */
    method Ask(line: string, idle: nat, max: nat) returns (text: string, ghost got: seq<Event>, raised: bool)
      requires IsConnected()
      modifies ser
      ensures raised == old(ser.failing)
      ensures raised ==> unchanged(ser)
      ensures IsConnected() && ser.failing == old(ser.failing) && ser.failure == old(ser.failure)
      ensures !raised ==>
        && ser.events == old(ser.events) + [Wrote(Wire(line))] + got
        && DrainShape(got, old(ser.now), idle, max)
        && ser.now == EndTime(got, old(ser.now))
        && text == Utf8.Decode(DataOf(got))
    {
      raised := WriteLine(line);
      if raised {
        return "", [], true;
      }
      text, got, raised := DrainUntilIdle(idle, max);
    }

    /** One exchange: "cd /", "cd <path>", the command and "cd /", each
        followed by a drain; the value comes from the third reply. On a
        failing device the first write raises and the exception is passed
        on with its text. */
    method Exchange(path: string, command: string) returns (reply: Result<string, string>, ghost replies: seq<seq<Event>>)
      requires IsConnected()
      modifies ser
      ensures IsConnected() && ser.failing == old(ser.failing)
      ensures old(ser.failing) <==> reply.Err?
      ensures reply.Err? ==> reply.error == old(ser.failure) && replies == [] && unchanged(ser)
      ensures reply.Ok? ==>
        && Drains(replies, old(ser.now))
        && ser.events == Transcript(old(ser.events), path, command, replies)
        && reply.value == Extracted(Utf8.Decode(DataOf(replies[2])))
    {
      ghost var t0 := ser.now;
      var _, r0, raised := Ask("cd /", 120, 1500);
      if raised {
        return Err(ser.failure), [];
      }
      var _, r1, _ := Ask("cd " + path, 120, 1500);
      var chunk, r2, _ := Ask(command, 250, 3000);
      var value := ExtractValueFromChunk(chunk);
      var _, r3, _ := Ask("cd /", 120, 1500);
      replies := [r0, r1, r2, r3];
      ExchangeDrains(r0, r1, r2, r3, t0);
      reply := Ok(value);
    }

    /** `do_get`: an unknown module is reported first and an offline port
        second, both without a write; otherwise one exchange around
        `get <key>`, answered from its third reply. The texts are replies;
        an exception from the port (`Err`) reaches the caller. */
    method DoGet(moduleName: string, key: string) returns (reply: Result<string, string>, ghost replies: seq<seq<Event>>)
      modifies ser
      ensures ModulePath(moduleName) == "" ==>
        reply == Ok(UnknownModule(moduleName)) && replies == [] && (ser != null ==> unchanged(ser))
      ensures ModulePath(moduleName) != "" && !old(IsConnected()) ==>
        reply == Ok(OfflineGet) && replies == [] && (ser != null ==> unchanged(ser))
      ensures ModulePath(moduleName) != "" && old(IsConnected()) && old(ser.failing) ==>
        reply == Err(old(ser.failure)) && replies == [] && unchanged(ser)
      ensures ModulePath(moduleName) != "" && old(IsConnected()) && !old(ser.failing) ==>
        && Drains(replies, old(ser.now))
        && ser.events == Transcript(old(ser.events), ModulePath(moduleName), "get " + key, replies)
        && reply == Ok(Extracted(Utf8.Decode(DataOf(replies[2]))))
    {
      var path := ModulePath(moduleName);
      if path == "" {
        return Ok(UnknownModule(moduleName)), [];
      }
      if !IsConnected() {
        return Ok(OfflineGet), [];
      }
      reply, replies := Exchange(path, "get " + key);
    }

    /** `do_set`: as `do_get`, around `set <key>` or `set <key> <value>`. */
    method DoSet(moduleName: string, key: string, val: Option<string>) returns (reply: Result<string, string>, ghost replies: seq<seq<Event>>)
      modifies ser
      ensures ModulePath(moduleName) == "" ==>
        reply == Ok(UnknownModule(moduleName)) && replies == [] && (ser != null ==> unchanged(ser))
      ensures ModulePath(moduleName) != "" && !old(IsConnected()) ==>
        reply == Ok(OfflineSet) && replies == [] && (ser != null ==> unchanged(ser))
      ensures ModulePath(moduleName) != "" && old(IsConnected()) && old(ser.failing) ==>
        reply == Err(old(ser.failure)) && replies == [] && unchanged(ser)
      ensures ModulePath(moduleName) != "" && old(IsConnected()) && !old(ser.failing) ==>
        && Drains(replies, old(ser.now))
        && ser.events == Transcript(old(ser.events), ModulePath(moduleName), SetCommand(key, val), replies)
        && reply == Ok(Extracted(Utf8.Decode(DataOf(replies[2]))))
    {
      var path := ModulePath(moduleName);
      if path == "" {
        return Ok(UnknownModule(moduleName)), [];
      }
      if !IsConnected() {
        return Ok(OfflineSet), [];
      }
      reply, replies := Exchange(path, SetCommand(key, val));
    }
  }
}
