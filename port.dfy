/** A scripted stand-in for the pyserial port both the reader worker and
    the shell backend use. Time is a logical clock in milliseconds; bytes
    either sit in the input buffer already (`in_waiting`) or are scripted
    to arrive after a delay. Every write and read is logged in order. A
    failing device makes writes and reads raise. */
module Port {
  import opened Text

  type Pos = n: int | n > 0 witness 1

  /** Bytes the device will send, `delay` ms after the previous arrival
      (or after the port started waiting for them). */
  datatype Arrival = Arrival(data: seq<Byte>, delay: nat)

  /** What happened on the wire: bytes written, or a read that returned
      `data` at clock time `at`. */
  datatype Event = Wrote(bytes: seq<Byte>) | Got(data: seq<Byte>, at: int)

  /** The size every blocking read asks for: `read(4096)`. */
  const ReadSize: nat := 4096

  /** All the bytes a script still holds, in order. */
  function AllData(script: seq<Arrival>): seq<Byte> {
    if script == [] then [] else script[0].data + AllData(script[1..])
  }

  /** What one blocking read ends with: the bytes returned, the bytes left
      in the input buffer, the arrivals still to come and the time spent. */
  datatype ReadOutcome = ReadOutcome(chunk: seq<Byte>, buffered: seq<Byte>, script: seq<Arrival>, elapsed: nat)

  /** A pyserial `read(ReadSize)` whose total timeout is `timeout`, with
      `acc` received so far and `left` ms of the timeout remaining: it
      returns as soon as `ReadSize` bytes are in, and otherwise takes every
      arrival due before the timeout and returns when the timeout ends.
      Nothing is lost: the bytes returned, those left buffered and those
      still to come are, in order, the bytes there were. */
  function Collect(acc: seq<Byte>, script: seq<Arrival>, left: nat, timeout: nat): (o: ReadOutcome)
    requires left <= timeout
    ensures o.chunk + o.buffered + AllData(o.script) == acc + AllData(script)
    ensures acc <= o.chunk + o.buffered
    ensures timeout - left <= o.elapsed <= timeout
    ensures |o.chunk| <= ReadSize || o.chunk == acc
    ensures |o.chunk| != ReadSize ==> o.elapsed == timeout && o.buffered == []
    ensures |o.chunk| != ReadSize && o.script != [] ==> o.script[0].delay > 0
    ensures |o.script| <= |script|
    ensures |o.script| == |script| ==>
      || (|acc| >= ReadSize && o.buffered == acc[ReadSize..] && o.elapsed == timeout - left)
      || (o.elapsed == timeout && o.buffered == [])
    decreases |script|
  {
    if |acc| >= ReadSize then
      assert acc == acc[..ReadSize] + acc[ReadSize..];
      ReadOutcome(acc[..ReadSize], acc[ReadSize..], script, timeout - left)
    else if script != [] && script[0].delay <= left then
      var o := Collect(acc + script[0].data, script[1..], left - script[0].delay, timeout);
      assert acc + AllData(script) == (acc + script[0].data) + AllData(script[1..]);
      o
    else if script == [] then
      ReadOutcome(acc, [], [], timeout)
    else
      var rest := [script[0].(delay := script[0].delay - left)] + script[1..];
      assert rest[1..] == script[1..];
      ReadOutcome(acc, [], rest, timeout)
  }

  /** Two arrivals 50 ms and 1450 ms into a read with a one-second
      timeout: the read takes the first, waits out the whole second, and
      leaves the second arrival 450 ms ahead. */
  lemma ReadWaitsOutTimeout(a: seq<Byte>, b: seq<Byte>)
    requires a == [65] && b == [66]
    ensures Collect([], [Arrival(a, 50), Arrival(b, 1400)], 1000, 1000)
         == ReadOutcome(a, [], [Arrival(b, 450)], 1000)
    ensures Collect([], [Arrival(b, 450)], 1000, 1000) == ReadOutcome(b, [], [], 1000)
  {
    var s := [Arrival(a, 50), Arrival(b, 1400)];
    assert s[1..] == [Arrival(b, 1400)];
    assert [] + a == a;
    assert Collect([], s, 1000, 1000) == Collect(a, [Arrival(b, 1400)], 950, 1000);
    var t := [Arrival(b, 450)];
    assert t[1..] == [];
    assert [] + b == b;
    assert Collect([], t, 1000, 1000) == Collect(b, [], 550, 1000);
  }


  class SerialPort {
    var isOpen: bool
    /** The logical clock, in ms. */
    var now: int
    /** Bytes received and not yet read. */
    var buffered: seq<Byte>
    /** Bytes still to come. */
    var script: seq<Arrival>
    /** The port's total read timeout (`timeout=1` when the terminal opens
        it: 1000 ms). */
    const readTimeout: Pos
    /** Writes and reads raise `SerialException` (the device went away) ... */
    var failing: bool
    /** ... with this text. */
    var failure: string
    /** `close()` raises. */
    const closeRaises: bool
    var events: seq<Event>

    constructor(script0: seq<Arrival>, timeout: Pos, closeRaises0: bool)
      ensures isOpen && !failing && failure == "" && now == 0 && buffered == [] && script == script0
      ensures readTimeout == timeout && closeRaises == closeRaises0 && events == []
    {
      isOpen := true;
      now := 0;
      buffered := [];
      script := script0;
      readTimeout := timeout;
      failing := false;
      failure := "";
      closeRaises := closeRaises0;
      events := [];
    }

    /** `write(b)` followed by `flush()`; raises when the device is failing. */
    method Write(b: seq<Byte>) returns (raised: bool)
      requires isOpen
      modifies this
      ensures raised == failing
      ensures !raised ==> events == old(events) + [Wrote(b)]
      ensures raised ==> unchanged(this)
      ensures isOpen && now == old(now) && buffered == old(buffered) && script == old(script)
      ensures failing == old(failing) && failure == old(failure)
    {
      raised := failing;
      if !failing {
        events := events + [Wrote(b)];
      }
    }

    /** A blocking `read(ReadSize)`, as `Collect` specifies it: it raises
        when the device is failing; otherwise it gathers what is buffered
        and what arrives until `ReadSize` bytes are in or the timeout has
        run out. */
    method ReadBlocking() returns (chunk: seq<Byte>, raised: bool)
      requires isOpen
      modifies this
      ensures raised == old(failing)
      ensures raised ==> chunk == [] && unchanged(this)
      ensures !raised ==>
        var o := Collect(old(buffered), old(script), readTimeout, readTimeout);
        && chunk == o.chunk && buffered == o.buffered && script == o.script
        && now == old(now) + o.elapsed
        && events == old(events) + [Got(chunk, now)]
      ensures isOpen && failing == old(failing) && failure == old(failure)
    {
      raised := failing;
      if failing {
        return [], true;
      }
      var acc := buffered;
      var left: nat := readTimeout;
      var rest := script;
      while |acc| < ReadSize && rest != [] && rest[0].delay <= left
        invariant left <= readTimeout
        invariant Collect(acc, rest, left, readTimeout) == Collect(old(buffered), old(script), readTimeout, readTimeout)
        decreases |rest|
      {
        acc := acc + rest[0].data;
        left := left - rest[0].delay;
        rest := rest[1..];
      }
      if |acc| >= ReadSize {
        chunk := acc[..ReadSize];
        buffered := acc[ReadSize..];
        script := rest;
        now := now + (readTimeout - left);
      } else if rest == [] {
        chunk := acc;
        buffered := [];
        script := [];
        now := now + readTimeout;
      } else {
        chunk := acc;
        buffered := [];
        script := [rest[0].(delay := rest[0].delay - left)] + rest[1..];
        now := now + readTimeout;
      }
      events := events + [Got(chunk, now)];
    }

    /** `in_waiting`, which raises when the device is failing. */
    method InWaiting() returns (n: nat, raised: bool)
      requires isOpen
      ensures raised == failing
      ensures !raised ==> n == |buffered|
    {
      raised := failing;
      n := if failing then 0 else |buffered|;
    }

    /** `read(n)` for `n` bytes already buffered: returns them at once,
        or raises when the device is failing. */
    method ReadBuffered(n: nat) returns (chunk: seq<Byte>, raised: bool)
      requires isOpen && n <= |buffered|
      modifies this
      ensures raised == old(failing)
      ensures raised ==> unchanged(this)
      ensures !raised ==> chunk == old(buffered)[..n] && buffered == old(buffered)[n..]
      ensures !raised ==> events == old(events) + [Got(chunk, now)]
      ensures isOpen && now == old(now) && script == old(script) && failing == old(failing) && failure == old(failure)
    {
      raised := failing;
      if failing {
        chunk := [];
        return;
      }
      chunk := buffered[..n];
      buffered := buffered[n..];
      events := events + [Got(chunk, now)];
    }

    /** The device sends `b`: it lands in the input buffer. */
    method Receive(b: seq<Byte>)
      modifies this
      ensures buffered == old(buffered) + b
      ensures isOpen == old(isOpen) && now == old(now) && script == old(script)
      ensures failing == old(failing) && failure == old(failure) && events == old(events)
    {
      buffered := buffered + b;
    }

    /** The device goes away: from now on reads raise with `reason`. */
    method Fail(reason: string)
      modifies this
      ensures failing && failure == reason
      ensures isOpen == old(isOpen) && now == old(now) && buffered == old(buffered)
      ensures script == old(script) && events == old(events)
    {
      failing := true;
      failure := reason;
    }

    /** `close()`; when it raises, the port is left as it was. */
    method Close() returns (raised: bool)
      modifies this
      ensures raised == closeRaises
      ensures !raised ==> !isOpen
      ensures raised ==> isOpen == old(isOpen)
      ensures now == old(now) && buffered == old(buffered) && script == old(script)
      ensures failing == old(failing) && failure == old(failure) && events == old(events)
    {
      raised := closeRaises;
      if !closeRaises {
        isOpen := false;
      }
    }
  }
}
