/**
 * ControllableProcess as a single-threaded object: the line queues it shares
 * with its worker threads, the reader worker's loop over one output stream,
 * one round of the input worker, and the Stop and Dispose decisions. What the
 * threads and the operating system would answer (a stream's characters, when
 * another thread raises the stop flag, whether a thread or the process is
 * still alive, the exit code) comes in as parameters; what the object asks of
 * them (sleeps, soft stops, waits, kills, stdin writes) is kept in ghost logs.
 */
module ConsoleTools {
  import opened Wrappers
  import opened LineAssembly

  /** A Queue<string> shared between the process object and one worker thread. */
  class LineQueue {
    var items: seq<string>

    constructor ()
      ensures items == []
    {
      items := [];
    }
  }

  /** The three worker threads Start creates. */
  datatype ThreadRole = InputThread | OutputThread | ErrorThread

  /** What Stop and Dispose do to the threads and the process, in the order they do it. */
  datatype SupervisorAction =
    | SendInput(text: string)
    | RaiseStopped
    | Sleep(ms: int)
    | SoftStop(thread: ThreadRole, ms: int)
    | WaitForExit(ms: int)
    | KillProcess
    | DisposeProcess

  /** The value Stop returns: the exit code of an exited process, -999 for one still running. */
  function ExitResult(hasExited: bool, exitCode: int): (r: int)
    ensures hasExited ==> r == exitCode
    ensures !hasExited ==> r == -999
  {
    if hasExited then exitCode else -999
  }

  /**
   * The actions of Stop with the given timeouts and input, when the input
   * thread's IsAlive answers `inputThreadAlive`.
   */
  function StopPlan(timeout: int, inputTimeout: int, outputTimeout: int, errorTimeout: int,
                    input: Option<string>, inputThreadAlive: bool): seq<SupervisorAction>
  {
    (if !inputThreadAlive then []
     else if input.Some? then [SendInput(input.value), Sleep(timeout)]
     else [RaiseStopped, SoftStop(InputThread, inputTimeout)])
    + [RaiseStopped, SoftStop(OutputThread, outputTimeout), SoftStop(ErrorThread, errorTimeout),
       WaitForExit(timeout)]
  }

  /** Where the first RaiseStopped of a plan sits. */
  function FirstStop(plan: seq<SupervisorAction>): (k: nat)
    ensures k <= |plan|
    ensures k < |plan| ==> plan[k] == RaiseStopped
    ensures forall j :: 0 <= j < k ==> plan[j] != RaiseStopped
  {
    if plan == [] then 0
    else if plan[0] == RaiseStopped then 0
    else 1 + FirstStop(plan[1..])
  }

  /**
   * With the input thread alive and an input given, Stop hands the input to
   * the input queue first and raises the stop flag only after the sleep, so
   * the input worker has a chance to send it.
   */
  lemma StopSendsInputBeforeStopping(timeout: int, inputTimeout: int, outputTimeout: int,
                                     errorTimeout: int, text: string)
    ensures var plan := StopPlan(timeout, inputTimeout, outputTimeout, errorTimeout, Some(text), true);
      && plan[0] == SendInput(text)
      && plan[1] == Sleep(timeout)
      && FirstStop(plan) == 2
  {
    var plan := StopPlan(timeout, inputTimeout, outputTimeout, errorTimeout, Some(text), true);
    assert plan[2] == RaiseStopped;
    assert plan[1..][1..] == plan[2..];
  }

  /** With the input thread dead, Stop never enqueues the input: it is dropped. */
  lemma StopDropsInputOfDeadThread(timeout: int, inputTimeout: int, outputTimeout: int,
                                   errorTimeout: int, input: Option<string>)
    ensures var plan := StopPlan(timeout, inputTimeout, outputTimeout, errorTimeout, input, false);
      && (forall j :: 0 <= j < |plan| ==> !plan[j].SendInput?)
      && FirstStop(plan) == 0
  {
  }

  /**
   * Whatever the answers, the stop flag is raised before the output and error
   * threads are stopped, and waiting for the process is the last thing done.
   */
  lemma StopRaisesFlagBeforeStoppingReaders(timeout: int, inputTimeout: int, outputTimeout: int,
                                            errorTimeout: int, input: Option<string>, inputThreadAlive: bool)
    ensures var plan := StopPlan(timeout, inputTimeout, outputTimeout, errorTimeout, input, inputThreadAlive);
      && FirstStop(plan) < |plan|
      && (forall j :: 0 <= j < |plan| && plan[j].SoftStop? && plan[j].thread != InputThread ==> FirstStop(plan) < j)
      && plan[|plan| - 1] == WaitForExit(timeout)
  {
    var plan := StopPlan(timeout, inputTimeout, outputTimeout, errorTimeout, input, inputThreadAlive);
    var head := if !inputThreadAlive then []
      else if input.Some? then [SendInput(input.value), Sleep(timeout)]
      else [RaiseStopped, SoftStop(InputThread, inputTimeout)];
    var k := |head|;
    assert plan[k] == RaiseStopped;
    assert FirstStop(plan) <= k by {
      FirstStopAtMost(plan, k);
    }
  }

  /** The first RaiseStopped comes no later than any RaiseStopped. */
  lemma {:induction false} FirstStopAtMost(plan: seq<SupervisorAction>, k: nat)
    requires k < |plan| && plan[k] == RaiseStopped
    ensures FirstStop(plan) <= k
  {
    if plan[0] != RaiseStopped {
      FirstStopAtMost(plan[1..], k - 1);
    }
  }

  /** How a reader worker starts: it clears the buffer of its own stream before the first read. */
  function ResetFor(m: Monitor, role: Role): (r: Monitor)
    ensures role == StandardOut ==> r.currentOutputLine == "" && r.currentErrorLine == m.currentErrorLine
    ensures role == StandardError ==> r.currentErrorLine == "" && r.currentOutputLine == m.currentOutputLine
    ensures r.outputQueue == m.outputQueue && r.errorQueue == m.errorQueue && r.events == m.events
  {
    if role == StandardOut then m.(currentOutputLine := "") else m.(currentErrorLine := "")
  }

  /**
   * How many characters a reader worker handles of a stream holding `n`
   * characters: all of them, unless the stop flag, checked after each one,
   * is already raised (then one) or is raised by another thread once
   * `stopRaisedAfter` characters are done (then that many, but at least one).
   */
  function Handled(n: nat, stoppedBefore: bool, stopRaisedAfter: nat): (k: nat)
    ensures k <= n
    ensures n > 0 ==> k >= 1
    ensures k < n ==> stoppedBefore || stopRaisedAfter <= k
    ensures k > 1 ==> !stoppedBefore && k - 1 < stopRaisedAfter
  {
    Min(n, if stoppedBefore then 1 else Max(1, stopRaisedAfter))
  }

  /** A reader that stops at the flag after `p` characters has handled Handled(...) of them. */
  lemma HandledAtStop(n: nat, stoppedBefore: bool, stopRaisedAfter: nat, p: nat)
    requires 1 <= p <= n
    requires stoppedBefore || stopRaisedAfter <= p
    requires p > 1 ==> !stoppedBefore && p - 1 < stopRaisedAfter
    ensures p == Handled(n, stoppedBefore, stopRaisedAfter)
  {
  }

  /** A reader that reaches the end of the stream without seeing the flag has handled all of it. */
  lemma HandledAtEnd(n: nat, stoppedBefore: bool, stopRaisedAfter: nat)
    requires n > 0 ==> !stoppedBefore && n < stopRaisedAfter
    ensures n == Handled(n, stoppedBefore, stopRaisedAfter)
  {
  }

  class ControllableProcess {
    const fileName: string
    const arguments: string
    const workingDirectory: string
    const inputQueue: LineQueue
    const outputQueue: LineQueue
    const errorQueue: LineQueue
    var currentOutputLine: string
    var currentErrorLine: string
    var stopped: bool
    var disposed: bool
    /** The events raised, in order. */
    ghost var events: seq<OutputEvent>
    /** The strings the input worker wrote to the process's stdin, in order. */
    ghost var stdinWrites: seq<string>
    /** What Stop and Dispose asked of the threads and the process, in order. */
    ghost var actions: seq<SupervisorAction>

    /**
     * The three queues are distinct objects, and the stdout buffer never holds
     * a line break: a '\n' is always trimmed off and the buffer cleared.
     */
    ghost predicate Valid()
      reads this
    {
      && inputQueue != outputQueue && inputQueue != errorQueue && outputQueue != errorQueue
      && '\n' !in currentOutputLine
    }

    /** The reader workers' shared state as a LineAssembly value. */
    ghost function MonitorState(): Monitor
      reads this, outputQueue, errorQueue
    {
      Monitor(currentOutputLine, currentErrorLine, outputQueue.items, errorQueue.items, events)
    }

    /** A process that is set up but not started: three empty queues, nothing stopped or disposed. */
    constructor (fileName: string, arguments: string, workingDirectory: string)
      ensures Valid() && fresh(inputQueue) && fresh(outputQueue) && fresh(errorQueue)
      ensures this.fileName == fileName && this.arguments == arguments
      ensures this.workingDirectory == workingDirectory
      ensures inputQueue.items == [] && outputQueue.items == [] && errorQueue.items == []
      ensures currentOutputLine == "" && currentErrorLine == ""
      ensures !stopped && !disposed
      ensures events == [] && stdinWrites == [] && actions == []
    {
      this.fileName := fileName;
      this.arguments := arguments;
      this.workingDirectory := workingDirectory;
      inputQueue := new LineQueue();
      outputQueue := new LineQueue();
      errorQueue := new LineQueue();
      currentOutputLine := "";
      currentErrorLine := "";
      stopped := false;
      disposed := false;
      events := [];
      stdinWrites := [];
      actions := [];
    }

    /** The CurrentOutputLine property: the stdout line being assembled, which holds no line break. */
    function CurrentOutputLine(): (line: string)
      reads this
      ensures Valid() ==> '\n' !in line
    {
      currentOutputLine
    }

    /** The CurrentErrorLine property: the stderr characters read since the reader started. */
    function CurrentErrorLine(): string
      reads this
    {
      currentErrorLine
    }

    /** Takes everything out of `queue`, oldest first, and leaves it empty. */
    static method LockAndDequeue(queue: LineQueue) returns (result: array<string>)
      modifies queue
      ensures fresh(result)
      ensures result[..] == old(queue.items)
      ensures queue.items == []
    {
      var snapshot := queue.items;
      result := new string[|snapshot|](i requires 0 <= i < |snapshot| => snapshot[i]);
      queue.items := [];
    }

    /** Puts `input` at the back of `queue`. */
    static method LockAndEnqueue(queue: LineQueue, input: string)
      modifies queue
      ensures queue.items == old(queue.items) + [input]
    {
      queue.items := queue.items + [input];
    }

    /** The trimmed stdout lines queued since the last call; the output queue is left empty. */
    method GetOutput() returns (lines: array<string>)
      requires Valid()
      modifies outputQueue
      ensures Valid()
      ensures fresh(lines)
      ensures lines[..] == old(outputQueue.items)
      ensures outputQueue.items == []
    {
      lines := LockAndDequeue(outputQueue);
    }

    /** The lines queued by the stderr reader since the last call; the error queue is left empty. */
    method GetError() returns (lines: array<string>)
      requires Valid()
      modifies errorQueue
      ensures Valid()
      ensures fresh(lines)
      ensures lines[..] == old(errorQueue.items)
      ensures errorQueue.items == []
    {
      lines := LockAndDequeue(errorQueue);
    }

    /** Queues `input` for the input worker to write to stdin. */
    method SetInput(input: string)
      requires Valid()
      modifies inputQueue
      ensures Valid()
      ensures inputQueue.items == old(inputQueue.items) + [input]
    {
      LockAndEnqueue(inputQueue, input);
    }

    /** One pass of the reader worker's loop body for the character `c`. */
    method ReaderStep(role: Role, c: char)
      requires Valid()
      modifies this`currentOutputLine, this`currentErrorLine, this`events, outputQueue, errorQueue
      ensures Valid()
      ensures MonitorState() == Step(old(MonitorState()), role, c)
    {
      var queue := if role == StandardOut then outputQueue else errorQueue;
      var lineBefore := currentOutputLine;
      if role == StandardOut {
        currentOutputLine := currentOutputLine + [c];
        events := events + [OutputEvent(HasOutputChar, c, lineBefore)];
      }
      if role == StandardError {
        currentErrorLine := currentErrorLine + [c];
        events := events + [OutputEvent(HasErrorChar, c, lineBefore)];
      }
      if c == '\n' {
        LockAndEnqueue(queue, TrimEnd(currentOutputLine));
        currentOutputLine := "";
        if role == StandardOut {
          events := events + [OutputEvent(HasOutputLine, c, lineBefore)];
        }
        if role == StandardError {
          events := events + [OutputEvent(HasErrorLine, c, lineBefore)];
        }
      }
    }

    /**
     * The reader worker bound to `role`, over a stream that yields the
     * characters of `stream` and then end of stream (a read of 0 characters).
     * `stopRaisedAfter` is when another thread raises the stop flag: the
     * check that follows the character at position j sees it raised when
     * `stopRaisedAfter <= j + 1`. The worker handles the first `handled`
     * characters, one Step each, after clearing its own buffer.
     */
    method ReadQueueWorker(role: Role, stream: string, stopRaisedAfter: nat) returns (handled: nat)
      requires Valid()
      modifies this`currentOutputLine, this`currentErrorLine, this`events, outputQueue, errorQueue
      ensures Valid()
      ensures handled == Handled(|stream|, stopped, stopRaisedAfter)
      ensures MonitorState() == Run(ResetFor(old(MonitorState()), role), role, stream[..handled])
    {
      if role == StandardError {
        currentErrorLine := "";
      }
      if role == StandardOut {
        currentOutputLine := "";
      }
      ghost var start := MonitorState();
      assert start == ResetFor(old(MonitorState()), role);
      var position := 0;
      var charsRead := if position < |stream| then 1 else 0;
      if charsRead == 0 {
        HandledAtEnd(|stream|, stopped, stopRaisedAfter);
      }
      while charsRead > 0
        invariant 0 <= position <= |stream|
        invariant charsRead == if position < |stream| then 1 else 0
        invariant position > 0 ==> !stopped && position < stopRaisedAfter
        invariant Valid()
        invariant MonitorState() == Run(start, role, stream[..position])
        invariant charsRead == 0 ==> position == Handled(|stream|, stopped, stopRaisedAfter)
        decreases |stream| - position
      {
        var c := stream[position];
        RunSnoc(start, role, stream[..position], c);
        assert stream[..position + 1] == stream[..position] + [c];
        ReaderStep(role, c);
        position := position + 1;
        if stopped || stopRaisedAfter <= position {
          HandledAtStop(|stream|, stopped, stopRaisedAfter, position);
          break;
        }
        charsRead := if position < |stream| then 1 else 0;
        if charsRead == 0 {
          HandledAtEnd(|stream|, stopped, stopRaisedAfter);
        }
      }
      handled := position;
    }

    /**
     * One round of the input worker's loop: while the stop flag is down, a
     * non-empty input queue is drained and its strings are written to stdin in
     * order, then the worker sleeps for 100 ms. `running` is the loop's own
     * condition, false once the flag is up; then nothing is done.
     */
    method WriterStep() returns (running: bool)
      requires Valid()
      modifies inputQueue, this`stdinWrites, this`actions
      ensures Valid()
      ensures running == !stopped
      ensures !running ==> inputQueue.items == old(inputQueue.items)
                           && stdinWrites == old(stdinWrites) && actions == old(actions)
      ensures running ==> inputQueue.items == []
                          && stdinWrites == old(stdinWrites) + old(inputQueue.items)
                          && actions == old(actions) + [Sleep(100)]
    {
      running := !stopped;
      if running {
        if |inputQueue.items| > 0 && !stopped {
          var inputs := LockAndDequeue(inputQueue);
          var i := 0;
          while i < inputs.Length
            invariant 0 <= i <= inputs.Length
            invariant stdinWrites == old(stdinWrites) + inputs[..i]
            invariant inputQueue.items == [] && actions == old(actions)
            invariant inputs[..] == old(inputQueue.items)
          {
            stdinWrites := stdinWrites + [inputs[i]];
            i := i + 1;
            assert inputs[..i] == inputs[..i - 1] + [inputs[i - 1]];
          }
          assert inputs[..] == inputs[..inputs.Length];
        } else {
          assert stdinWrites == old(stdinWrites) + [];
        }
        actions := actions + [Sleep(100)];
      }
    }

    /**
     * Stop with explicit timeouts. The environment answers whether the input
     * thread is alive and whether (and with which code) the process exited.
     */
    method StopWithTimeouts(timeout: int, inputTimeout: int, outputTimeout: int, errorTimeout: int,
                            input: Option<string>, inputThreadAlive: bool, hasExited: bool, exitCode: int)
      returns (result: int)
      requires Valid()
      modifies this`stopped, this`actions, inputQueue
      ensures Valid()
      ensures stopped
      ensures result == ExitResult(hasExited, exitCode)
      ensures inputQueue.items == old(inputQueue.items)
                                  + (if inputThreadAlive && input.Some? then [input.value] else [])
      ensures actions == old(actions)
                         + StopPlan(timeout, inputTimeout, outputTimeout, errorTimeout, input, inputThreadAlive)
    {
      if inputThreadAlive {
        if input.Some? {
          SetInput(input.value);
          actions := actions + [SendInput(input.value), Sleep(timeout)];
        } else {
          stopped := true;
          actions := actions + [RaiseStopped, SoftStop(InputThread, inputTimeout)];
        }
      }
      stopped := true;
      actions := actions + [RaiseStopped, SoftStop(OutputThread, outputTimeout),
                            SoftStop(ErrorThread, errorTimeout), WaitForExit(timeout)];
      result := ExitResult(hasExited, exitCode);
    }

    /** Stop(input): every timeout is 100 ms. */
    method StopWithInput(input: Option<string>, inputThreadAlive: bool, hasExited: bool, exitCode: int)
      returns (result: int)
      requires Valid()
      modifies this`stopped, this`actions, inputQueue
      ensures Valid()
      ensures stopped
      ensures result == ExitResult(hasExited, exitCode)
      ensures inputQueue.items == old(inputQueue.items)
                                  + (if inputThreadAlive && input.Some? then [input.value] else [])
      ensures actions == old(actions) + StopPlan(100, 100, 100, 100, input, inputThreadAlive)
    {
      result := StopWithTimeouts(100, 100, 100, 100, input, inputThreadAlive, hasExited, exitCode);
    }

    /** Stop(): Stop(input) without input, so the input thread is soft-stopped too. */
    method Stop(inputThreadAlive: bool, hasExited: bool, exitCode: int) returns (result: int)
      requires Valid()
      modifies this`stopped, this`actions, inputQueue
      ensures Valid()
      ensures stopped
      ensures result == ExitResult(hasExited, exitCode)
      ensures inputQueue.items == old(inputQueue.items)
      ensures actions == old(actions) + StopPlan(100, 100, 100, 100, None, inputThreadAlive)
    {
      result := StopWithInput(None, inputThreadAlive, hasExited, exitCode);
    }

    /**
     * Dispose(disposing). `killSucceeds` is whether Process.Kill returns
     * normally; when it throws, the kill has still been requested (and is
     * logged), the exception propagates (`ok` is false), the process is not
     * released and the object stays undisposed.
     */
    method DisposeCore(disposing: bool, killSucceeds: bool) returns (ok: bool)
      requires Valid()
      modifies this`disposed, this`actions
      ensures Valid()
      ensures old(disposed) ==> ok && disposed && actions == old(actions)
      ensures !old(disposed) && disposing && !killSucceeds
              ==> !ok && !disposed && actions == old(actions) + [KillProcess]
      ensures !old(disposed) && disposing && killSucceeds
              ==> ok && disposed && actions == old(actions) + [KillProcess, DisposeProcess]
      ensures !old(disposed) && !disposing ==> ok && disposed && actions == old(actions)
    {
      ok := true;
      if !disposed {
        if disposing {
          if !killSucceeds {
            actions := actions + [KillProcess];
            ok := false;
            return;
          }
          actions := actions + [KillProcess, DisposeProcess];
        }
        disposed := true;
      }
    }

    /** Dispose(): kills and releases the process the first time; later calls change nothing. */
    method Dispose(killSucceeds: bool) returns (ok: bool)
      requires Valid()
      modifies this`disposed, this`actions
      ensures Valid()
      ensures old(disposed) ==> ok && disposed && actions == old(actions)
      ensures !old(disposed) ==> ok == killSucceeds && disposed == killSucceeds
                                 && actions == old(actions) + (if killSucceeds then [KillProcess, DisposeProcess] else [KillProcess])
    {
      ok := DisposeCore(true, killSucceeds);
    }
  }
}
