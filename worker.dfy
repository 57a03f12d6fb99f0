/** The reader thread of the terminal (serial_worker.py): a loop that polls
    the port while a run flag is up, skips reading while paused, reads
    whatever is buffered otherwise, and reports data, errors and its own
    end as signals. The thread's surroundings (the app pausing, stopping
    or closing, the device sending or going away) are a schedule of
    actions, one applied before each check of the run flag. */
module Worker {
  import opened Text
  import opened Port

  /** The signals the worker emits, in order. */
  datatype Signal = DataReceived(data: seq<Byte>) | ErrorOccurred(message: string) | Finished

  /** What may happen between two checks of the run flag. */
  datatype Action =
    | Arrive(bytes: seq<Byte>)     // the device sends bytes
    | SetPause(flag: bool)         // `pause(flag)` from the app
    | RequestStop                  // `stop()` from the app
    | Unplug(reason: string)       // reads start raising
    | CloseByApp                   // the app closes the port

  const ClosedMessage: string := "Le port s\U{E9}rie a \U{E9}t\U{E9} ferm\U{E9} inopin\U{E9}ment."

  function ReadError(reason: string): string {
    "Erreur de lecture du port s\U{E9}rie : " + reason
  }

  /** The bytes the signals carried, in order. */
  function Received(log: seq<Signal>): seq<Byte> {
    if log == [] then []
    else Received(log[..|log| - 1]) + (if log[|log| - 1].DataReceived? then log[|log| - 1].data else [])
  }

  /** How many times `finished` was emitted. */
  function FinishedCount(log: seq<Signal>): nat {
    if log == [] then 0
    else FinishedCount(log[..|log| - 1]) + (if log[|log| - 1] == Finished then 1 else 0)
  }

  /** The last signal emitted is an error. */
  predicate ErrorLast(log: seq<Signal>) {
    log != [] && log[|log| - 1].ErrorOccurred?
  }

  /** The bytes the device sends in an action. */
  function Bytes(a: Action): seq<Byte> {
    if a.Arrive? then a.bytes else []
  }

  /** The bytes the device sent in a schedule. */
  function Arrived(actions: seq<Action>): seq<Byte> {
    if actions == [] then []
    else Arrived(actions[..|actions| - 1]) + Bytes(actions[|actions| - 1])
  }

  /** The schedule lifts a pause. */
  predicate Unpauses(actions: seq<Action>) {
    actions != [] && (Unpauses(actions[..|actions| - 1]) || actions[|actions| - 1] == SetPause(false))
  }

  lemma ReceivedSnoc(log: seq<Signal>, s: Signal)
    ensures Received(log + [s]) == Received(log) + (if s.DataReceived? then s.data else [])
    ensures FinishedCount(log + [s]) == FinishedCount(log) + (if s == Finished then 1 else 0)
    ensures !s.DataReceived? ==> Received(log + [s]) == Received(log)
  {
    assert (log + [s])[..|log|] == log;
    assert Received(log) + [] == Received(log);
  }

  /** `Arrived` of the first `n` actions, counted from the front. */
  function ArrivedUpTo(actions: seq<Action>, n: nat): seq<Byte>
    requires n <= |actions|
  {
    if n == 0 then [] else ArrivedUpTo(actions, n - 1) + Bytes(actions[n - 1])
  }

  /** `Unpauses` of the first `n` actions, counted from the front. */
  predicate UnpausesUpTo(actions: seq<Action>, n: nat)
    requires n <= |actions|
  {
    n > 0 && (UnpausesUpTo(actions, n - 1) || actions[n - 1] == SetPause(false))
  }

  lemma {:induction false} UpToPrefix(actions: seq<Action>, n: nat)
    requires n <= |actions|
    ensures ArrivedUpTo(actions, n) == Arrived(actions[..n])
    ensures UnpausesUpTo(actions, n) <==> Unpauses(actions[..n])
  {
    if n > 0 {
      UpToPrefix(actions, n - 1);
      assert actions[..n][..n - 1] == actions[..n - 1];
    }
  }

  class SerialWorker {
    const port: SerialPort?
    /** `_is_running` */
    var running: bool
    /** `_paused` */
    var paused: bool
    var log: seq<Signal>

    constructor(p: SerialPort?)
      ensures port == p && running && !paused && log == []
    {
      port := p;
      running := true;
      paused := false;
      log := [];
    }

    /** The bytes passed on so far followed by those still buffered. */
    function Delivered(): seq<Byte>
      reads this, port
    {
      if port != null then Received(log) + port.buffered else []
    }

    /** `pause(flag)`: the flag and nothing else. */
    method Pause(flag: bool)
      modifies this
      ensures paused == flag && running == old(running) && log == old(log)
    {
      paused := flag;
    }

    /** `stop()`: the loop ends at its next check. */
    method Stop()
      modifies this
      ensures !running && paused == old(paused) && log == old(log)
    {
      running := false;
    }

    /** One action of the surroundings. */
    method Apply(a: Action)
      modifies this, port
      ensures log == old(log)
      ensures running == (old(running) && a != RequestStop)
      ensures paused == (if a.SetPause? then a.flag else old(paused))
      ensures port != null ==>
        && port.buffered == old(port.buffered) + Bytes(a)
        && port.events == old(port.events)
        && (a.Unplug? ==> port.failing && port.failure == a.reason)
        && (!a.Unplug? ==> port.failing == old(port.failing) && port.failure == old(port.failure))
    {
      match a
      case Arrive(b) =>
        if port != null {
          port.Receive(b);
        }
      case SetPause(flag) => Pause(flag);
      case RequestStop => Stop();
      case Unplug(reason) =>
        if port != null {
          port.Fail(reason);
        }
      case CloseByApp =>
        if port != null {
          var _ := port.Close();
        }
    }

    /** One pass of the loop body: a missing or closed port is an error
        that ends the loop; while paused nothing is read; otherwise
        `in_waiting` bytes are read and passed on when there are any, and a
        `SerialException` is an error that ends the loop. */
    method Iterate() returns (keepGoing: bool)
      modifies this, port
      ensures running == old(running) && paused == old(paused)
      ensures port == null || !old(port.isOpen) ==>
        !keepGoing && log == old(log) + [ErrorOccurred(ClosedMessage)]
        && (port != null ==> unchanged(port))
      ensures port != null && old(port.isOpen) && paused ==>
        keepGoing && log == old(log) && unchanged(port)
      ensures port != null && old(port.isOpen) && !paused && old(port.failing) ==>
        !keepGoing && log == old(log) + [ErrorOccurred(ReadError(port.failure))] && unchanged(port)
      ensures port != null && old(port.isOpen) && !paused && !old(port.failing) ==>
        && keepGoing && port.isOpen && !port.failing && port.failure == old(port.failure)
        && port.buffered == []
        && port.events == old(port.events) + (if old(port.buffered) == [] then [] else [Got(old(port.buffered), port.now)])
        && log == old(log) + (if old(port.buffered) == [] then [] else [DataReceived(old(port.buffered))])
      ensures !keepGoing ==> ErrorLast(log)
      ensures FinishedCount(log) == FinishedCount(old(log))
      ensures port != null ==> Delivered() == old(Delivered())
    {
      if port == null || !port.isOpen {
        ReceivedSnoc(log, ErrorOccurred(ClosedMessage));
        log := log + [ErrorOccurred(ClosedMessage)];
        return false;
      }
      if paused {
        return true;
      }
      var n, raised := port.InWaiting();
      if raised {
        ReceivedSnoc(log, ErrorOccurred(ReadError(port.failure)));
        log := log + [ErrorOccurred(ReadError(port.failure))];
        return false;
      }
      if n > 0 {
        var data, raised2 := port.ReadBuffered(n);
        if raised2 {
          assert false;
        }
        assert data == old(port.buffered);
        if data != [] {
          ReceivedSnoc(log, DataReceived(data));
          log := log + [DataReceived(data)];
        }
      }
      return true;
    }

    /** One turn of the loop: an action of the surroundings, the check of
        the run flag, and the body when the flag is up. `stop` says the
        loop ends here. */
    method Step(a: Action) returns (stop: bool)
      modifies this, port
      ensures a == RequestStop ==> stop
      ensures running == (old(running) && a != RequestStop)
      ensures stop ==> !running || ErrorLast(log)
      ensures FinishedCount(log) == FinishedCount(old(log))
      ensures port != null ==> Delivered() == old(Delivered()) + Bytes(a)
      ensures port != null && old(paused) && a != SetPause(false) ==>
        paused && port.events == old(port.events)
    {
      ghost var before := if port != null then port.buffered else [];
      Apply(a);
      if port != null {
        assert Received(log) + port.buffered == (Received(log) + before) + Bytes(a);
      }
      if !running {
        return true;
      }
      var keepGoing := Iterate();
      return !keepGoing;
    }

    /** What the loop of `run` keeps after `consumed` actions: no
        `finished` yet, no stop before the last action (nor at it while
        the loop goes on), the run flag as it was while the loop goes on,
        and the loop ended only for a reason; every byte that arrived
        delivered; a paused worker not yet unpaused has read nothing. */
    ghost predicate Kept(schedule: seq<Action>, consumed: nat, exited: bool, base: seq<Byte>,
                         finished: nat, wasPaused: bool, wasRunning: bool, events: seq<Event>)
      reads this, port
    {
      && consumed <= |schedule|
      && FinishedCount(log) == finished
      && (forall k | 0 <= k < consumed - 1 :: schedule[k] != RequestStop)
      && (!exited && consumed > 0 ==> schedule[consumed - 1] != RequestStop)
      && (!exited ==> running == wasRunning)
      && (exited ==> consumed > 0 && (!wasRunning || schedule[consumed - 1] == RequestStop || ErrorLast(log)))
      && (port != null ==> Delivered() == base + ArrivedUpTo(schedule, consumed))
      && (port != null && wasPaused && !UnpausesUpTo(schedule, consumed) ==> paused && port.events == events)
    }

    /** One turn of the loop of `run` keeps `Kept`. */
    method Turn(schedule: seq<Action>, consumed: nat, ghost base: seq<Byte>, ghost finished: nat,
                ghost wasPaused: bool, ghost wasRunning: bool, ghost events: seq<Event>) returns (stop: bool)
      requires consumed < |schedule|
      requires Kept(schedule, consumed, false, base, finished, wasPaused, wasRunning, events)
      modifies this, port
      ensures Kept(schedule, consumed + 1, stop, base, finished, wasPaused, wasRunning, events)
    {
      stop := Step(schedule[consumed]);
      Regroup(base, ArrivedUpTo(schedule, consumed), Bytes(schedule[consumed]));
    }

    /** The `while` loop of `run`, for as many checks of the run flag as
        the schedule has actions: it ends at the first stop, and otherwise
        only when the run flag was already down or an error was just
        emitted; it emits no `finished`. */
    method Loop(schedule: seq<Action>) returns (consumed: nat, exited: bool)
      modifies this, port
      ensures consumed <= |schedule|
      ensures !exited ==> consumed == |schedule|
      ensures FinishedCount(log) == FinishedCount(old(log))
      ensures forall k | 0 <= k < consumed - 1 :: schedule[k] != RequestStop
      ensures consumed > 0 && schedule[consumed - 1] == RequestStop ==> exited
      ensures exited ==> consumed > 0 && (!old(running) || schedule[consumed - 1] == RequestStop || ErrorLast(log))
      ensures port != null ==> Delivered() == old(Delivered()) + Arrived(schedule[..consumed])
      ensures port != null && old(paused) && !Unpauses(schedule[..consumed]) ==>
        port.events == old(port.events)
    {
      consumed := 0;
      exited := false;
      ghost var base := Delivered();
      ghost var finished := FinishedCount(log);
      ghost var wasPaused := paused;
      ghost var wasRunning := running;
      ghost var events := if port != null then port.events else [];
      while consumed < |schedule| && !exited
        invariant Kept(schedule, consumed, exited, base, finished, wasPaused, wasRunning, events)
      {
        exited := Turn(schedule, consumed, base, finished, wasPaused, wasRunning, events);
        consumed := consumed + 1;
      }
      UpToPrefix(schedule, consumed);
    }

    /** `run`: the loop, then `finished` once it has ended, which is the
        one time `finished` is emitted. The loop ends at a stop (or at once
        when the run flag was already down), a closed port or a read error,
        and only then. Every byte the device sent is either passed on, in
        order, or still buffered; and a paused worker that is never
        unpaused reads nothing. */
    method Run(schedule: seq<Action>) returns (consumed: nat, exited: bool)
      modifies this, port
      ensures consumed <= |schedule|
      ensures !exited ==> consumed == |schedule|
      ensures FinishedCount(log) == FinishedCount(old(log)) + (if exited then 1 else 0)
      ensures exited ==> log[|log| - 1] == Finished
      ensures forall k | 0 <= k < consumed - 1 :: schedule[k] != RequestStop
      ensures consumed > 0 && schedule[consumed - 1] == RequestStop ==> exited
      ensures exited ==>
        && consumed > 0
        && (!old(running) || schedule[consumed - 1] == RequestStop || (|log| >= 2 && log[|log| - 2].ErrorOccurred?))
      ensures port != null ==> Delivered() == old(Delivered()) + Arrived(schedule[..consumed])
      ensures port != null && old(paused) && !Unpauses(schedule[..consumed]) ==>
        port.events == old(port.events)
    {
      consumed, exited := Loop(schedule);
      if exited {
        EmitFinished();
      }
    }

    /** `self.finished.emit()`: one more `finished`, after whatever was
        emitted last; the bytes passed on stay as they were. */
    method EmitFinished()
      modifies this`log
      ensures log == old(log) + [Finished]
      ensures FinishedCount(log) == FinishedCount(old(log)) + 1
      ensures ErrorLast(old(log)) ==> |log| >= 2 && log[|log| - 2].ErrorOccurred?
      ensures port != null ==> Delivered() == old(Delivered())
    {
      ReceivedSnoc(log, Finished);
      log := log + [Finished];
    }
  }
}
