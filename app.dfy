/** The main window's serial pipeline (main.py): received bytes are
    buffered and cut into lines, each line is shown and offered to the
    auto-responder; outgoing sequences and lines wait in a FIFO queue that
    is only served while no reception burst is in progress. The Qt timers
    become flags plus one method per timeout, and what the window shows or
    sends is recorded, in order, in one output log. */
module App {
  import opened Text
  import opened Wrappers
  import opened Store
  import Utf8
  import Codec
  import ReceiveSequences
  import SendSequences
  import Port
  import Worker
  import Backend

  /** What the window does that can be observed: bytes written to the
      port, text shown in the terminal, a blank terminal line, a format
      error reported for a mode, the "not connected" warning, or the
      `[SEND ERROR] -> <reason>` line of a write that raised. */
  datatype Output =
    | Sent(bytes: seq<Byte>)
    | Shown(text: string)
    | Blank
    | FormatError(mode: string)
    | NotConnected
    | SendError(reason: string)

  /** The state of the terminal's port as a send sees it: not open, open
      but raising on writes with the given text, or working. */
  datatype Link = Offline | Failing(reason: string) | Online

  /** An entry of the send queue. */
  datatype Item = SequenceItem(data: SendSequences.Sequence) | LineItem(line: string)

  const Newline: Byte := 10

  // ---------------------------------------------------------------------
  // Framing of received bytes
  // ---------------------------------------------------------------------

  /** The lines, each followed by its newline, one after the other. */
  function Joined(lines: seq<seq<Byte>>): seq<Byte> {
    if lines == [] then [] else Joined(lines[..|lines| - 1]) + lines[|lines| - 1] + [Newline]
  }

  /** Position of the first newline, or the length when there is none. */
  function FirstNewline(buf: seq<Byte>): (k: nat)
    ensures k <= |buf|
    ensures forall i | 0 <= i < k :: buf[i] != Newline
    ensures k < |buf| ==> buf[k] == Newline
  {
    if buf == [] || buf[0] == Newline then 0 else 1 + FirstNewline(buf[1..])
  }

  /** When the buffer holds a newline, the first one splits it into a
      line without newline, the newline, and the rest. */
  lemma Cut(buf: seq<Byte>)
    requires Newline in buf
    ensures var k := FirstNewline(buf);
      && k < |buf| && Newline !in buf[..k]
      && buf == buf[..k] + [Newline] + buf[k + 1..]
  {
    var k := FirstNewline(buf);
    var i :| 0 <= i < |buf| && buf[i] == Newline;
    assert k <= i;
    LineOf(buf, k);
  }

  lemma LineOf(buf: seq<Byte>, k: nat)
    requires k < |buf| && buf[k] == Newline
    requires forall i | 0 <= i < k :: buf[i] != Newline
    ensures Newline !in buf[..k]
    ensures buf == buf[..k] + [Newline] + buf[k + 1..]
  {
    assert buf[k..] == [Newline] + buf[k + 1..];
    assert buf == buf[..k] + buf[k..];
    assert forall j | 0 <= j < k :: buf[..k][j] == buf[j];
  }

  /** `buf.split(b'\n', 1)` up to `n` times: the lines cut off the front
      of `buf`, without their newlines, and what is left. */
  function Frames(buf: seq<Byte>, n: nat): (seq<seq<Byte>>, seq<Byte>)
    decreases n
  {
    if n == 0 || Newline !in buf then ([], buf)
    else
      var k := FirstNewline(buf);
      var rest := Frames(buf[k + 1..], n - 1);
      ([buf[..k]] + rest.0, rest.1)
  }

  /** A line without newline followed by a newline is the first frame
      cut off the front. */
  lemma FramesCons(l: seq<Byte>, tail: seq<Byte>, n: nat)
    requires Newline !in l
    ensures Frames(l + [Newline] + tail, n + 1) == ([l] + Frames(tail, n).0, Frames(tail, n).1)
  {
    var buf := l + [Newline] + tail;
    assert buf[|l|] == Newline;
    assert forall i | 0 <= i < |l| :: buf[i] == l[i];
    var k := FirstNewline(buf);
    assert k <= |l|;
    assert k == |l|;
    Cut(buf);
    assert buf[..k] == l;
    assert buf[k + 1..] == tail;
  }

  /** No line holds a newline, first line first. */
  predicate Clean(lines: seq<seq<Byte>>) {
    lines == [] || (Newline !in lines[0] && Clean(lines[1..]))
  }

  lemma {:induction false} CleanOf(lines: seq<seq<Byte>>)
    requires forall j | 0 <= j < |lines| :: Newline !in lines[j]
    ensures Clean(lines)
  {
    if lines != [] {
      assert forall j | 0 <= j < |lines| - 1 :: lines[1..][j] == lines[j + 1];
      CleanOf(lines[1..]);
    }
  }

  /** The split `Frames` computes is the only one of its kind: lines
      without newlines that, each with its newline and followed by what is
      left, give back the buffer, `n` of them or fewer when no newline is
      left. */
  lemma {:induction false} FramesUnique(buf: seq<Byte>, n: nat, lines: seq<seq<Byte>>, rest: seq<Byte>)
    requires Joined(lines) + rest == buf
    requires Clean(lines)
    requires |lines| <= n && (|lines| < n ==> Newline !in rest)
    ensures Frames(buf, n) == (lines, rest)
    decreases n
  {
    if lines != [] {
      var others := lines[1..];
      var tail := Joined(others) + rest;
      JoinedHead(lines, rest);
      assert buf == lines[0] + [Newline] + tail;
      FramesCons(lines[0], tail, n - 1);
      FramesUnique(tail, n - 1, others, rest);
      assert Frames(buf, n) == ([lines[0]] + others, rest);
      HeadTail(lines);
    } else {
      EmptyPrefix(Joined(lines), rest);
    }
  }

  /** The first line, its newline, then the others. */
  lemma JoinedHead(lines: seq<seq<Byte>>, rest: seq<Byte>)
    requires lines != []
    ensures Joined(lines) + rest == lines[0] + [Newline] + (Joined(lines[1..]) + rest)
  {
    assert lines == [lines[0]] + lines[1..];
    JoinedCons(lines[0], lines[1..]);
  }

  lemma {:induction false} JoinedCons(l: seq<Byte>, ls: seq<seq<Byte>>)
    ensures Joined([l] + ls) == l + [Newline] + Joined(ls)
    decreases |ls|
  {
    if ls != [] {
      var n := |ls|;
      assert ([l] + ls)[..n] == [l] + ls[..n - 1];
      JoinedCons(l, ls[..n - 1]);
    } else {
      assert [l] + ls == [l];
      assert [l][..0] == [];
    }
  }

  /** Cutting the first line off what is left keeps the buffer whole. */
  lemma CutStep(orig: seq<Byte>, lines: seq<seq<Byte>>, buf: seq<Byte>)
    requires Joined(lines) + buf == orig && Newline in buf
    ensures Joined(lines + [buf[..FirstNewline(buf)]]) + buf[FirstNewline(buf) + 1..] == orig
  {
    var k := FirstNewline(buf);
    var ls := lines + [buf[..k]];
    assert ls[..|ls| - 1] == lines;
    Cut(buf);
  }

  /** Appending a line without a newline keeps every line clean. */
  lemma CleanSnoc(lines: seq<seq<Byte>>, line: seq<Byte>)
    requires forall j | 0 <= j < |lines| :: Newline !in lines[j]
    requires Newline !in line
    ensures forall j | 0 <= j < |lines + [line]| :: Newline !in (lines + [line])[j]
  {
  }

  /** Bytes that arrive in two chunks are framed as if they had come at
      once: a line split across chunks is put back together. */
  lemma FramesOfPieces(a: seq<Byte>, b: seq<Byte>)
    requires Newline !in a
    ensures Frames(a + b, 1).0 == (if Newline in b then [a + Frames(b, 1).0[0]] else [])
  {
    if Newline in b {
      Cut(b);
      var k := FirstNewline(b);
      assert a + b == a + b[..k] + [Newline] + b[k + 1..];
      assert Newline !in a + b[..k];
      FramesCons(a + b[..k], b[k + 1..], 0);
      FramesCons(b[..k], b[k + 1..], 0);
    } else {
      assert Newline !in a + b;
    }
  }

  // ---------------------------------------------------------------------
  // Displays
  // ---------------------------------------------------------------------

  /** `bytes.decode('latin-1')`: each byte is the character with its code. */
  function Latin1Decode(b: seq<Byte>): (s: string)
    ensures |s| == |b|
    ensures forall i | 0 <= i < |b| :: s[i] as int == b[i] as int
  {
    seq(|b|, i requires 0 <= i < |b| => b[i] as char)
  }

  /** How a received line is shown in each terminal mode (any mode other
      than ASCII and HEX shows decimal). */
  function RxDisplay(mode: string, line: seq<Byte>): string {
    if mode == "ASCII" then Utf8.Decode(line)
    else if mode == "HEX" then Codec.FormatHex(line)
    else Codec.FormatDecimal(line)
  }

  /** How sent bytes are shown: in ASCII mode as latin-1 text with CR and
      LF written out as `\r` and `\n`. */
  function TxDisplay(mode: string, data: seq<Byte>): string {
    if mode == "ASCII" then Replace(Replace(Latin1Decode(data), "\n", "\\n"), "\r", "\\r")
    else if mode == "HEX" then Codec.FormatHex(data)
    else Codec.FormatDecimal(data)
  }

  /** In HEX and Decimal display modes, what the terminal shows of sent or
      received bytes, typed back into a sequence of the same mode, sends
      exactly those bytes. */
  lemma DisplayRoundTrip(mode: string, data: seq<Byte>)
    requires mode == "HEX" || mode == "Decimal"
    ensures Codec.Encode(mode, TxDisplay(mode, data)) == Ok(data)
    ensures Codec.Encode(mode, RxDisplay(mode, data)) == Ok(data)
  {
    if mode == "HEX" {
      Codec.HexDisplayRoundTrip(data);
    } else {
      Codec.DecimalDisplayRoundTrip(data);
    }
  }

  // ---------------------------------------------------------------------
  // Effects, as functions
  // ---------------------------------------------------------------------

  /** `send_data`: a warning when the port is not open; otherwise the
      bytes go out and are shown, unless the write raises, which is
      reported instead. */
  function SendEffect(link: Link, mode: string, data: seq<Byte>): seq<Output> {
    match link
    case Online => [Sent(data), Shown(TxDisplay(mode, data))]
    case Failing(e) => [SendError(e)]
    case Offline => [NotConnected]
  }

  /** `write_auto_response`: the response encoded under its mode and sent;
      a format error is reported and nothing is sent. */
  function AutoResponseEffect(link: Link, mode: string, r: ReceiveSequences.Response): seq<Output> {
    match Codec.Encode(r.mode, r.sequence)
    case Ok(data) => SendEffect(link, mode, data)
    case Err(_) => [FormatError(r.mode)]
  }

  /** What one framed line leads to: a blank line is shown blank and
      nothing else; any other line is shown and, with its newline, offered
      to the rules, and the first response is sent. */
  function UnitEffect(rules: seq<ReceiveSequences.Rule>, link: Link, mode: string, line: seq<Byte>): seq<Output> {
    if IsBlankBytes(line) then [Blank]
    else
      [Shown(RxDisplay(mode, line))]
      + match ReceiveSequences.FirstResponse(rules, line + [Newline])
        case None => []
        case Some(resp) => AutoResponseEffect(link, mode, resp)
  }

  /** A blank line is shown blank and never reaches the auto-responder,
      whatever the rules; any other line is shown first, then the first
      matching rule's response, once encoded under its own mode, is sent
      and echoed (or reported as not connected, or its write error
      reported), and a response that does
      not encode is reported as a format error. */
  lemma UnitEffectCases(rules: seq<ReceiveSequences.Rule>, link: Link, mode: string, line: seq<Byte>)
    ensures IsBlankBytes(line) ==> UnitEffect(rules, link, mode, line) == [Blank]
    ensures !IsBlankBytes(line) ==>
      var shown := Shown(RxDisplay(mode, line));
      match ReceiveSequences.FirstResponse(rules, line + [Newline])
      case None => UnitEffect(rules, link, mode, line) == [shown]
      case Some(resp) =>
        match Codec.Encode(resp.mode, resp.sequence)
        case Ok(data) =>
          UnitEffect(rules, link, mode, line)
          == (match link
              case Online => [shown, Sent(data), Shown(TxDisplay(mode, data))]
              case Failing(e) => [shown, SendError(e)]
              case Offline => [shown, NotConnected])
        case Err(_) => UnitEffect(rules, link, mode, line) == [shown, FormatError(resp.mode)]
  {
  }

  function Effects(rules: seq<ReceiveSequences.Rule>, link: Link, mode: string, lines: seq<seq<Byte>>): seq<Output> {
    if lines == [] then []
    else Effects(rules, link, mode, lines[..|lines| - 1])
         + UnitEffect(rules, link, mode, lines[|lines| - 1])
  }
  /** Handling one more line extends the output by that line's effect. */
  lemma OutStep(rules: seq<ReceiveSequences.Rule>, link: Link, mode: string,
                start: seq<Output>, mid: seq<Output>, now: seq<Output>, lines: seq<seq<Byte>>, line: seq<Byte>)
    requires mid == start + Effects(rules, link, mode, lines)
    requires now == mid + UnitEffect(rules, link, mode, line)
    ensures now == start + Effects(rules, link, mode, lines + [line])
  {
    var e := Effects(rules, link, mode, lines);
    var u := UnitEffect(rules, link, mode, line);
    EffectsSnoc(rules, link, mode, lines, line);
    Regroup(start, e, u);
  }

  lemma EffectsSnoc(rules: seq<ReceiveSequences.Rule>, link: Link, mode: string,
                    lines: seq<seq<Byte>>, line: seq<Byte>)
    ensures Effects(rules, link, mode, lines + [line])
         == Effects(rules, link, mode, lines) + UnitEffect(rules, link, mode, line)
  {
    assert (lines + [line])[..|lines|] == lines;
  }


  /** Latin-1 code points of a text. */
  function Codes(s: string): seq<int> {
    seq(|s|, i requires 0 <= i < |s| => s[i] as int)
  }

  /** `(line + '\r\n').encode('latin-1')` */
  function LineBytes(line: string): (r: Result<seq<Byte>, Codec.ValueError>)
    ensures r.Ok? <==> forall i | 0 <= i < |line| :: line[i] as int < 256
  {
    var r := Codec.Latin1(Codes(line + "\r\n"));
    assert r.Ok? <==> forall i | 0 <= i < |line| :: line[i] as int < 256 by {
      var cs := Codes(line + "\r\n");
      assert forall i | 0 <= i < |line| :: cs[i] == line[i] as int;
      assert cs[|line|] == 13 && cs[|line| + 1] == 10;
    }
    r
  }

  /** A line of Latin-1 text goes out as its bytes followed by CR LF. */
  lemma LineBytesValue(line: string)
    requires forall i | 0 <= i < |line| :: line[i] as int < 256
    ensures LineBytes(line).Ok?
    ensures |LineBytes(line).value| == |line| + 2
    ensures forall i | 0 <= i < |line| :: LineBytes(line).value[i] as int == line[i] as int
    ensures LineBytes(line).value[|line|..] == [13, 10]
  {
    var cs := Codes(line + "\r\n");
    assert forall i | 0 <= i < |line| :: cs[i] == line[i] as int;
    assert cs[|line|] == 13 && cs[|line| + 1] == 10;
  }

  /** What serving one queue item does, and whether it raises: a sequence
      is encoded under its mode (ASCII by default) and sent, or a format
      error is reported; a line is sent with CR LF, and one that is not
      Latin-1 raises before anything is sent. */
  function ItemEffect(link: Link, mode: string, item: Item): (bool, seq<Output>) {
    match item
    case SequenceItem(s) =>
      var m := Get(s.mode, "ASCII");
      (match Codec.Encode(m, Get(s.sequence, ""))
       case Ok(data) => (false, SendEffect(link, mode, data))
       case Err(_) => (false, [FormatError(m)]))
    case LineItem(line) =>
      (match LineBytes(line)
       case Ok(data) => (false, SendEffect(link, mode, data))
       case Err(_) => (true, []))
  }

  // ---------------------------------------------------------------------
  // The window
  // ---------------------------------------------------------------------

  class SerialApp {
    /** `serial_buffer` */
    var serialBuffer: seq<Byte>
    /** `is_receiving_data` */
    var isReceivingData: bool
    /** `terminal_display_mode` */
    var displayMode: string
    /** `send_queue` */
    var sendQueue: seq<Item>
    var sendTimerActive: bool
    var rxTimerActive: bool
    var bufferTimerActive: bool
    var out: seq<Output>
    /** 0: terminal page, 1: calibrator page. */
    var view: nat

    const port: Port.SerialPort?
    /** The port name in the connection settings. */
    const settingsPort: Option<string>
    const worker: Worker.SerialWorker?
    const backend: Backend.SerialBackend
    const receiver: ReceiveSequences.ReceiveSequenceManager

    constructor(p: Port.SerialPort?, name: Option<string>, w: Worker.SerialWorker?,
                b: Backend.SerialBackend, r: ReceiveSequences.ReceiveSequenceManager)
      ensures serialBuffer == [] && !isReceivingData && displayMode == "ASCII" && sendQueue == []
      ensures !sendTimerActive && !rxTimerActive && !bufferTimerActive && out == [] && view == 0
      ensures port == p && settingsPort == name && worker == w && backend == b && receiver == r
    {
      serialBuffer := [];
      isReceivingData := false;
      displayMode := "ASCII";
      sendQueue := [];
      sendTimerActive := false;
      rxTimerActive := false;
      bufferTimerActive := false;
      out := [];
      view := 0;
      port := p;
      settingsPort := name;
      worker := w;
      backend := b;
      receiver := r;
    }

    /** `serial_port and serial_port.is_open` */
    predicate Connected()
      reads port
    {
      port != null && port.isOpen
    }

    /** Whether a send finds the port closed, failing or working. */
    function Status(): (l: Link)
      reads port
      ensures l.Offline? <==> !Connected()
      ensures l.Failing? <==> Connected() && port.failing
    {
      if !Connected() then Offline
      else if port.failing then Failing(port.failure)
      else Online
    }

    /** `_on_terminal_display_mode_changed` */
    method OnDisplayModeChanged(mode: string)
      modifies this
      ensures displayMode == mode
      ensures serialBuffer == old(serialBuffer) && sendQueue == old(sendQueue) && out == old(out)
    {
      displayMode := mode;
    }

    /** `update_terminal`: a chunk from the reader is appended, a burst is
        in progress (its timeout restarts), and processing is scheduled. */
    method UpdateTerminal(data: seq<Byte>)
      modifies this
      ensures serialBuffer == old(serialBuffer) + data
      ensures isReceivingData && rxTimerActive && bufferTimerActive
      ensures sendQueue == old(sendQueue) && sendTimerActive == old(sendTimerActive)
      ensures out == old(out) && displayMode == old(displayMode)
    {
      isReceivingData := true;
      rxTimerActive := true;
      serialBuffer := serialBuffer + data;
      bufferTimerActive := true;
    }

    /** `_on_rx_stream_finished`: the only place the burst flag is cleared. */
    method RxTimeout()
      modifies this
      ensures !isReceivingData && !rxTimerActive
      ensures serialBuffer == old(serialBuffer) && sendQueue == old(sendQueue) && out == old(out)
      ensures sendTimerActive == old(sendTimerActive) && bufferTimerActive == old(bufferTimerActive)
    {
      isReceivingData := false;
      rxTimerActive := false;
    }

    /** `send_data`, without its wait for the end of a burst: the bytes are
        written, and shown only once the write went through. */
    method SendData(data: seq<Byte>)
      modifies this, port
      ensures out == old(out) + SendEffect(old(Status()), displayMode, data)
      ensures Status() == old(Status())
      ensures old(Status()).Online? ==> port.events == old(port.events) + [Port.Wrote(data)]
      ensures !old(Status()).Online? && port != null ==> unchanged(port)
      ensures serialBuffer == old(serialBuffer) && sendQueue == old(sendQueue)
      ensures isReceivingData == old(isReceivingData) && displayMode == old(displayMode)
      ensures sendTimerActive == old(sendTimerActive) && bufferTimerActive == old(bufferTimerActive)
    {
      if !Connected() {
        out := out + [NotConnected];
        return;
      }
      var raised := port.Write(data);
      if raised {
        out := out + [SendError(port.failure)];
      } else {
        out := out + [Sent(data), Shown(TxDisplay(displayMode, data))];
      }
    }

    /** `write_auto_response` */
    method WriteAutoResponse(r: ReceiveSequences.Response)
      modifies this, port
      ensures out == old(out) + AutoResponseEffect(old(Status()), displayMode, r)
      ensures Status() == old(Status())
      ensures serialBuffer == old(serialBuffer) && sendQueue == old(sendQueue)
      ensures isReceivingData == old(isReceivingData) && displayMode == old(displayMode)
      ensures sendTimerActive == old(sendTimerActive) && bufferTimerActive == old(bufferTimerActive)
    {
      match Codec.Encode(r.mode, r.sequence)
      case Ok(data) => SendData(data);
      case Err(_) => out := out + [FormatError(r.mode)];
    }

    /** The body of `process_buffered_data`'s loop for one line. */
    method HandleLine(line: seq<Byte>)
      modifies this, port
      ensures out == old(out) + UnitEffect(receiver.rules, old(Status()), displayMode, line)
      ensures Status() == old(Status())
      ensures serialBuffer == old(serialBuffer) && sendQueue == old(sendQueue)
      ensures sendTimerActive == old(sendTimerActive) && bufferTimerActive == old(bufferTimerActive)
      ensures isReceivingData == old(isReceivingData) && displayMode == old(displayMode)
    {
      var u := line + [Newline];
      if IsBlankBytes(line) {
        out := out + [Blank];
        return;
      }
      var shown := [Shown(RxDisplay(displayMode, line))];
      out := out + shown;
      var resp := receiver.CheckAndGetResponse(u);
      if resp.Some? {
        ghost var sent := AutoResponseEffect(Status(), displayMode, resp.value);
        ghost var link := Status();
        WriteAutoResponse(resp.value);
        assert UnitEffect(receiver.rules, link, displayMode, line) == shown + sent;
        Regroup(old(out), shown, sent);
      } else {
        assert out == old(out) + shown + [];
      }
    }

    /** `process_buffered_data`, run when its single-shot timer fires: at
        most 100 lines are cut off the buffer and handled in order, and
        the timer is armed again exactly when a complete line is left. No
        byte is lost: the lines, each with its newline, followed by what
        is left give back the buffer. */
    method ProcessBufferedData() returns (ghost lines: seq<seq<Byte>>)
      modifies this, port
      ensures Joined(lines) + serialBuffer == old(serialBuffer)
      ensures forall j | 0 <= j < |lines| :: Newline !in lines[j]
      ensures |lines| <= 100 && (|lines| < 100 ==> Newline !in serialBuffer)
      ensures (lines, serialBuffer) == Frames(old(serialBuffer), 100)
      ensures out == old(out) + Effects(receiver.rules, old(Status()), displayMode, lines)
      ensures Status() == old(Status())
      ensures bufferTimerActive <==> Newline in serialBuffer
      ensures sendQueue == old(sendQueue) && sendTimerActive == old(sendTimerActive)
      ensures isReceivingData == old(isReceivingData) && displayMode == old(displayMode)
    {
      bufferTimerActive := false;
      lines := [];
      var i := 0;
      ghost var rules, link, mode := receiver.rules, Status(), displayMode;
      while i < 100 && Newline in serialBuffer
        invariant 0 <= i <= 100 && |lines| == i
        invariant Joined(lines) + serialBuffer == old(serialBuffer)
        invariant forall j | 0 <= j < |lines| :: Newline !in lines[j]
        invariant rules == receiver.rules && link == Status() && mode == displayMode
        invariant out == old(out) + Effects(rules, link, mode, lines)
        invariant sendQueue == old(sendQueue) && sendTimerActive == old(sendTimerActive)
        invariant isReceivingData == old(isReceivingData) && displayMode == old(displayMode)
        invariant !bufferTimerActive
      {
        var k := FirstNewline(serialBuffer);
        var line := serialBuffer[..k];
        Cut(serialBuffer);
        CutStep(old(serialBuffer), lines, serialBuffer);
        ghost var mid := out;
        HandleLine(line);
        OutStep(rules, link, mode, old(out), mid, out, lines, line);
        CleanSnoc(lines, line);
        lines := lines + [line];
        serialBuffer := serialBuffer[k + 1..];
        i := i + 1;
      }
      CleanOf(lines);
      FramesUnique(old(serialBuffer), 100, lines, serialBuffer);
      if Newline in serialBuffer {
        bufferTimerActive := true;
      }
    }

    /** `write_to_serial`: the sequence joins the tail of the queue and the
        send timer runs. */
    method WriteToSerial(data: SendSequences.Sequence)
      modifies this
      ensures sendQueue == old(sendQueue) + [SequenceItem(data)] && sendTimerActive
      ensures serialBuffer == old(serialBuffer) && out == old(out)
      ensures isReceivingData == old(isReceivingData) && displayMode == old(displayMode)
    {
      sendQueue := sendQueue + [SequenceItem(data)];
      sendTimerActive := true;
    }

    /** `write_line_to_serial`: the same for a text line. */
    method WriteLineToSerial(line: string)
      modifies this
      ensures sendQueue == old(sendQueue) + [LineItem(line)] && sendTimerActive
      ensures serialBuffer == old(serialBuffer) && out == old(out)
      ensures isReceivingData == old(isReceivingData) && displayMode == old(displayMode)
    {
      sendQueue := sendQueue + [LineItem(line)];
      sendTimerActive := true;
    }

    /** `process_send_queue`, run on each send-timer tick: nothing is taken
        while the queue is empty or a burst is in progress, and the timer
        stops; otherwise the head item is taken and served, and the timer
        stops once the queue is empty. A line that is not Latin-1 raises
        after it was taken, leaving the timer as it was. */
    method ProcessSendQueue() returns (raised: bool)
      modifies this, port
      ensures old(sendQueue) == [] || old(isReceivingData) ==>
        && !raised && sendQueue == old(sendQueue) && out == old(out) && !sendTimerActive
      ensures old(sendQueue) != [] && !old(isReceivingData) ==>
        && sendQueue == old(sendQueue)[1..]
        && (raised, out) == (ItemEffect(old(Status()), displayMode, old(sendQueue)[0]).0,
                             old(out) + ItemEffect(old(Status()), displayMode, old(sendQueue)[0]).1)
        && sendTimerActive == (old(sendTimerActive) && (raised || sendQueue != []))
      ensures serialBuffer == old(serialBuffer) && isReceivingData == old(isReceivingData)
      ensures displayMode == old(displayMode)
    {
      raised := false;
      if sendQueue == [] || isReceivingData {
        sendTimerActive := false;
        return;
      }
      var item := sendQueue[0];
      sendQueue := sendQueue[1..];
      match item {
        case SequenceItem(s) =>
          var m := Get(s.mode, "ASCII");
          match Codec.Encode(m, Get(s.sequence, "")) {
            case Ok(data) => SendData(data);
            case Err(_) => out := out + [FormatError(m)];
          }
        case LineItem(line) =>
          match LineBytes(line) {
            case Ok(data) => SendData(data);
            case Err(_) =>
              assert out + [] == out;
              return true;
          }
      }
      if sendQueue == [] {
        sendTimerActive := false;
      }
    }

    /** `enter_calibrator_mode`: the calibrator page is shown, the reader
        is paused, and an open terminal port is handed to the backend. */
    method EnterCalibratorMode()
      modifies this, worker, backend
      ensures view == 1
      ensures worker != null ==>
        worker.paused && worker.running == old(worker.running) && worker.log == old(worker.log)
      ensures Connected() ==> backend.ser == port && backend.port == settingsPort
      ensures !Connected() ==> backend.ser == old(backend.ser) && backend.port == old(backend.port)
      ensures serialBuffer == old(serialBuffer) && sendQueue == old(sendQueue) && out == old(out)
    {
      view := 1;
      if worker != null {
        worker.Pause(true);
      }
      if port != null && port.isOpen {
        backend.Attach(port, settingsPort);
      }
    }

    /** `enter_terminal_mode`: the terminal page is shown and the reader
        resumes. */
    method EnterTerminalMode()
      modifies this, worker
      ensures view == 0
      ensures worker != null ==>
        !worker.paused && worker.running == old(worker.running) && worker.log == old(worker.log)
      ensures serialBuffer == old(serialBuffer) && sendQueue == old(sendQueue) && out == old(out)
    {
      view := 0;
      if worker != null {
        worker.Pause(false);
      }
    }
  }
}
